/** What the reconcile block stops. It is never lifted, and it keeps every new save, retry and
    read from being admitted; but it is looked at when an operation is admitted, not when it
    completes. The lemmas say exactly when a blocked session can still complete something. */
module SessionBlocked {
  import opened Wrappers
  import opened SessionSteps
  import opened SessionLaws

  /** Saves and reads completed normally so far. */
  function Completed(log: seq<Entry>): nat {
    if log == [] then 0
    else
      var last := log[|log| - 1];
      Completed(log[..|log| - 1]) + if last.Done? || last.LoadDone? then 1 else 0
  }

  lemma CompletedNext(log: seq<Entry>, e: Entry)
    ensures Completed(log + [e]) == Completed(log) + if e.Done? || e.LoadDone? then 1 else 0
  {
    assert (log + [e])[..|log|] == log;
  }

  /** Is a retry of the held ticket already in the queue? */
  predicate RetryQueued(s: State) {
    s.failed.Some? && RetryJob(s.failed.value) in s.queue
  }

  /** Is something under way that the block came too late for? */
  ghost predicate UnderWay(s: State) {
    || s.running.Some?
    || RetryQueued(s)
    || exists load :: load in s.loads && load.request == s.serial
  }

  /** The block is never lifted. */
  lemma {:induction false} BlockedForever(s: State, events: seq<Event>)
    requires s.blocked
    ensures Run(s, events).blocked
    decreases |events|
  {
    if events != [] {
      BlockedForever(Step(s, events[0]), events[1..]);
    }
  }

  lemma QuietStep(s: State, e: Event)
    requires s.blocked && !UnderWay(s) && Counted(s)
    ensures Step(s, e).blocked && !UnderWay(Step(s, e)) && Counted(Step(s, e))
    ensures Completed(Step(s, e).log) == Completed(s.log)
  {
    StepCounted(s, e);
    var s' := Step(s, e);
    assert s'.running.None?;
    assert s'.failed == s.failed;
    forall load | load in s'.loads ensures load.request != s'.serial {
      assert load in s.loads;
    }
    if s'.log != s.log {
      CompletedNext(s.log, Marked);
      assert s'.log == s.log + [Marked];
    }
  }

  /** With nothing under way when the block falls, nothing ever completes again. */
  lemma {:induction false} QuietForever(s: State, events: seq<Event>)
    requires s.blocked && !UnderWay(s) && Counted(s)
    ensures Completed(Run(s, events).log) == Completed(s.log)
    decreases |events|
  {
    if events != [] {
      QuietStep(s, events[0]);
      QuietForever(Step(s, events[0]), events[1..]);
    }
  }

  // ---- the other half: whatever is under way can still complete

  lemma TwoEvents(s: State, e: Event, f: Event)
    ensures Run(s, [e, f]) == Step(Step(s, e), f)
  {
    assert [e, f][1..] == [f] && [f][1..] == [];
    assert Run(Step(s, e), [f]) == Run(Step(Step(s, e), f), []);
  }

  lemma {:induction false} RunAppend(s: State, xs: seq<Event>, ys: seq<Event>)
    ensures Run(s, xs + ys) == Run(Run(s, xs), ys)
    decreases |xs|
  {
    if xs == [] {
      assert xs + ys == ys;
    } else {
      assert (xs + ys)[1..] == xs[1..] + ys;
      RunAppend(Step(s, xs[0]), xs[1..], ys);
    }
  }

  lemma AdoptingCompletes(s: State) returns (events: seq<Event>)
    requires s.running.Some? && s.running.value.Adopting?
    ensures Completed(Run(s, events).log) > Completed(s.log)
  {
    var captured := s.running.value.captured;
    var home := OnOutside(s.outside.(store := captured.store));
    events := [home, OnAdopt(true)];
    TwoEvents(s, home, OnAdopt(true));
    CompletedNext(s.log, Done(captured.ticket));
  }

  lemma RunningCompletes(s: State) returns (events: seq<Event>)
    requires s.running.Some?
    ensures Completed(Run(s, events).log) > Completed(s.log)
  {
    if s.running.value.Adopting? {
      events := AdoptingCompletes(s);
    } else {
      var captured := s.running.value.captured;
      var home := OnOutside(s.outside.(store := captured.store, stamp := captured.stamp, reconcile := false));
      var first := [home, OnAnswer(true, false)];
      TwoEvents(s, home, OnAnswer(true, false));
      var s1 := Run(s, first);
      CompletedNext(s.log, Acknowledged(captured.ticket));
      var rest := AdoptingCompletes(s1);
      RunAppend(s, first, rest);
      events := first + rest;
    }
  }

  lemma {:induction false} RetryCompletes(s: State) returns (events: seq<Event>)
    requires s.blocked && s.running.None? && RetryQueued(s)
    ensures Completed(Run(s, events).log) > Completed(s.log)
    decreases |s.queue|
  {
    var captured := s.failed.value;
    if s.queue[0] == RetryJob(captured) {
      var home := OnOutside(s.outside.(store := captured.store));
      var first := [home, OnTurn(true)];
      TwoEvents(s, home, OnTurn(true));
      CompletedNext(s.log, Sent(captured.ticket));
      var rest := RunningCompletes(Run(s, first));
      RunAppend(s, first, rest);
      events := first + rest;
    } else {
      var s1 := Turn(s, true);
      var rest := RetryCompletes(s1);
      assert ([OnTurn(true)] + rest)[1..] == rest;
      events := [OnTurn(true)] + rest;
    }
  }

  lemma ReadCompletes(s: State, load: Load) returns (events: seq<Event>)
    requires load in s.loads && load.request == s.serial
    ensures Completed(Run(s, events).log) > Completed(s.log)
  {
    var home := OnOutside(s.outside.(store := load.before, busy := false, draft := load.fingerprint));
    events := [home, OnLoaded(load, true, None)];
    TwoEvents(s, home, OnLoaded(load, true, None));
    CompletedNext(s.log, LoadDone(load.request));
  }

  /** A blocked session completes nothing any more, in any continuation, if and only if no
      save is running, no retry of the held ticket is queued and the newest read asked for,
      with no operation since, is not still unanswered. */
  lemma BlockIsFinal(events: seq<Event>)
    requires Run(START, events).blocked
    ensures var s := Run(START, events);
            !UnderWay(s) <==> forall more :: Completed(Run(s, more).log) == Completed(s.log)
  {
    RunKeeps(START, events);
    var s := Run(START, events);
    if UnderWay(s) {
      var more;
      if s.running.Some? {
        more := RunningCompletes(s);
      } else if RetryQueued(s) {
        more := RetryCompletes(s);
      } else {
        var load :| load in s.loads && load.request == s.serial;
        more := ReadCompletes(s, load);
      }
      assert Completed(Run(s, more).log) != Completed(s.log);
    } else {
      forall more ensures Completed(Run(s, more).log) == Completed(s.log) {
        QuietForever(s, more);
      }
    }
  }

  /** A run after which a save completes normally although the session is blocked: a stale
      read blocks it while the save is in flight. */
  lemma SavedThoughBlocked() returns (events: seq<Event>, more: seq<Event>)
    ensures Run(START, events).blocked
    ensures Completed(Run(Run(START, events), more).log) > Completed(Run(START, events).log)
  {
    var read := Load(1, 0, None);
    var first, second := [OnLoad, OnSave], [OnTurn(true), OnLoaded(read, true, None)];
    events := first + second;
    RunAppend(START, first, second);
    TwoEvents(START, OnLoad, OnSave);
    TwoEvents(Run(START, first), OnTurn(true), OnLoaded(read, true, None));
    more := RunningCompletes(Run(START, events));
  }
}
