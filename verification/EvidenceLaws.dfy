/** What every run of the evidence client keeps. */
module EvidenceLaws {
  import opened Wrappers
  import opened JsonValues
  import opened EvidenceRevision
  import opened EvidenceDocuments
  import opened EvidenceSteps

  // ---- the invariant

  predicate Spoken(p: Preparation) {
    p.progress == Saving || p.progress == Committed
  }

  /** A preparation given up is never being saved, and only a prepared one can be saved. */
  predicate PreparationSound(p: Preparation) {
    && (p.abandoned ==> !Spoken(p))
    && (p.progress == Discarded || p.discarding ==> p.abandoned)
    && (Spoken(p) ==> p.reference.Some?)
    && (p.reference.Some? ==> p.reference.value.Pending?)
  }

  /** Every pending reference of the ticket's document is the one its preparation was given. */
  predicate Backed(s: State, ticket: Ticket) {
    var pending := PendingOf(References(ticket.request.document.cases));
    && |ticket.authorities| == |pending|
    && forall i :: 0 <= i < |pending| ==>
         ticket.authorities[i] < |s.preparations| && s.preparations[ticket.authorities[i]].reference == Some(pending[i])
  }

  /** What the requests sent so far say about the present. */
  predicate Logged(s: State, sent: Sent) {
    match sent
    case LoadSent => true
    case PrepareSent(k, command) => k < |s.preparations| && s.preparations[k].command == command
    case DiscardSent(k, reference) =>
      k < |s.preparations| && s.preparations[k].abandoned && s.preparations[k].reference == Some(reference)
    case SaveSent(t, request) =>
      && t < |s.tickets| && s.tickets[t].request == request
      && forall i :: 0 <= i < |s.tickets[t].authorities| ==>
           s.tickets[t].authorities[i] < |s.preparations| && Spoken(s.preparations[s.tickets[t].authorities[i]])
  }

  predicate SealSound(s: State, seal: Seal) {
    && seal.preparation < |s.preparations|
    && !s.preparations[seal.preparation].abandoned
    && s.preparations[seal.preparation].reference.Some?
    && s.preparations[seal.preparation].reference.value.Pending?
    && s.preparations[seal.preparation].reference.value.token == seal.token
  }

  ghost predicate Sound(s: State) {
    && (forall k :: 0 <= k < |s.preparations| ==> PreparationSound(s.preparations[k]))
    && (forall t :: 0 <= t < |s.tickets| ==> Backed(s, s.tickets[t]))
    && (forall i :: 0 <= i < |s.log| ==> Logged(s, s.log[i]))
    && (s.view.Some? ==> ValidDocument(s.view.value))
    && (forall t :: 0 <= t < |s.tickets| ==> Accepted(s.tickets[t].request.expectedStore.revision))
  }

  /** A save in flight has been sent. */
  ghost predicate Flying(s: State) {
    forall t :: t in s.saving ==>
      && t < |s.tickets|
      && forall i :: 0 <= i < |s.tickets[t].authorities| ==>
           s.tickets[t].authorities[i] < |s.preparations| && Spoken(s.preparations[s.tickets[t].authorities[i]])
  }

  /** At most eight tokens are kept, each of a preparation that may still be saved. */
  ghost predicate Sealed(s: State) {
    |s.seals| <= PENDING_LIMIT && forall x :: x in s.seals ==> SealSound(s, x)
  }

  /** Nothing that a preparation or a ticket was given is ever taken back. */
  predicate Later(p: Preparation, q: Preparation) {
    && p.command == q.command
    && (p.abandoned ==> q.abandoned)
    && (p.reference.Some? ==> q.reference == p.reference)
    && (Spoken(p) ==> Spoken(q))
  }

  ghost predicate Grown(s: State, s': State) {
    && |s.preparations| <= |s'.preparations|
    && (forall k :: 0 <= k < |s.preparations| ==> Later(s.preparations[k], s'.preparations[k]))
    && s.tickets <= s'.tickets
    && s.log <= s'.log
  }

  /** What has been sent and promised stays true of a state that has grown. */
  lemma Carried(s: State, s': State)
    requires Sound(s) && Grown(s, s')
    ensures forall t :: 0 <= t < |s.tickets| ==> Backed(s', s'.tickets[t])
    ensures forall i :: 0 <= i < |s.log| ==> Logged(s', s'.log[i])
  {
    forall t | 0 <= t < |s.tickets| ensures Backed(s', s'.tickets[t]) {
      assert Backed(s, s.tickets[t]);
    }
    forall i | 0 <= i < |s.log| ensures Logged(s', s'.log[i]) {
      assert Logged(s, s.log[i]);
    }
  }

  /** A preparation is sent only while it has no reference yet. */
  ghost predicate Unanswered(s: State) {
    && (forall k :: 0 <= k < |s.preparations| && s.preparations[k].reference.Some? ==>
          s.preparations[k].prepared || s.preparations[k].abandoned)
    && (forall k :: k in s.preparing ==> k < |s.preparations| && s.preparations[k].reference.None?)
  }

  lemma DiscardCallSound(s: State, k: nat)
    requires Sound(s)
    ensures Sound(DiscardCall(s, k)) && Grown(s, DiscardCall(s, k))
    ensures Unanswered(s) ==> Unanswered(DiscardCall(s, k))
  {
    var s' := DiscardCall(s, k);
    assert Grown(s, s');
    Carried(s, s');
  }

  lemma LoadReplySound(s: State, mine: nat, reply: Option<Document>)
    requires Sound(s)
    ensures Sound(LoadReply(s, mine, reply)) && Grown(s, LoadReply(s, mine, reply))
    ensures Unanswered(s) ==> Unanswered(LoadReply(s, mine, reply))
  {
    Carried(s, LoadReply(s, mine, reply));
  }

  lemma DiscardReplySound(s: State, k: nat, discarded: bool)
    requires Sound(s)
    ensures Sound(DiscardReply(s, k, discarded)) && Grown(s, DiscardReply(s, k, discarded))
    ensures Unanswered(s) ==> Unanswered(DiscardReply(s, k, discarded))
  {
    var s' := DiscardReply(s, k, discarded);
    assert Grown(s, s');
    Carried(s, s');
  }

  lemma NewPreparationSound(s: State, command: Command, admissible: bool)
    requires Sound(s)
    ensures Sound(NewPreparation(s, command, admissible)) && Grown(s, NewPreparation(s, command, admissible))
    ensures Unanswered(s) ==> Unanswered(NewPreparation(s, command, admissible))
  {
    var s' := NewPreparation(s, command, admissible);
    assert Grown(s, s');
    Carried(s, s');
  }

  lemma PrepareCallSound(s: State, k: nat, current: bool)
    requires Sound(s)
    ensures Sound(PrepareCall(s, k, current)) && Grown(s, PrepareCall(s, k, current))
    ensures Unanswered(s) ==> Unanswered(PrepareCall(s, k, current))
  {
    DiscardCallSound(s, k);
    var s' := PrepareCall(s, k, current);
    assert Grown(s, s');
    Carried(s, s');
  }

  /** The state once preparation `k` has been given `ref`, before anything is decided about it. */
  function Given(s: State, k: nat, ref: Reference): State
    requires k < |s.preparations| && ref.Pending?
  {
    s.(preparing := s.preparing - {k}, preparations := s.preparations[k := s.preparations[k].(reference := Some(ref))],
       seals := Newest(PutSeal(s.seals, Seal(ref.token, k))))
  }

  lemma GivenSound(s: State, k: nat, ref: Reference)
    requires Sound(s) && k < |s.preparations| && ref.Pending? && s.preparations[k].reference.None?
    ensures Sound(Given(s, k, ref)) && Grown(s, Given(s, k, ref))
  {
    assert Grown(s, Given(s, k, ref));
    Carried(s, Given(s, k, ref));
  }

  lemma PrepareReplySound(s: State, k: nat, reply: Option<Answer>, current: bool)
    requires Sound(s) && Unanswered(s)
    ensures Sound(PrepareReply(s, k, reply, current)) && Grown(s, PrepareReply(s, k, reply, current))
  {
    var s' := PrepareReply(s, k, reply, current);
    if k in s.preparing && reply.Some? && Fits(s.preparations[k].command, reply.value) {
      var given := Given(s, k, reply.value.reference);
      GivenSound(s, k, reply.value.reference);
      DiscardCallSound(given, k);
      assert Grown(given, s');
      Carried(given, s');
    } else {
      Carried(s, s');
    }
  }

  lemma PrepareReplyUnanswered(s: State, k: nat, reply: Option<Answer>, current: bool)
    requires Sound(s) && Unanswered(s)
    ensures Unanswered(PrepareReply(s, k, reply, current))
  {
  }

  lemma {:induction false} AuthoritiesBack(s: State, pending: seq<Reference>)
    requires forall i :: 0 <= i < |pending| ==> pending[i].Pending?
    requires Authorities(s, pending).Some?
    ensures forall i :: 0 <= i < |pending| ==>
              var k := Authorities(s, pending).value[i];
              k < |s.preparations| && s.preparations[k].reference == Some(pending[i])
  {
    if pending != [] {
      AuthoritiesBack(s, pending[1..]);
    }
  }

  lemma PrepareSaveSound(s: State, document: Document, requestId: Text, admissible: bool)
    requires Sound(s)
    ensures Sound(PrepareSave(s, document, requestId, admissible))
            && Grown(s, PrepareSave(s, document, requestId, admissible))
    ensures Unanswered(s) ==> Unanswered(PrepareSave(s, document, requestId, admissible))
  {
    var s' := PrepareSave(s, document, requestId, admissible);
    var pending := PendingOf(References(document.cases));
    if s' != s {
      AuthoritiesBack(s, pending);
    }
    assert Grown(s, s');
    Carried(s, s');
  }

  /** Moving preparations on to being saved keeps everything, unless one was given up. */
  lemma MarkedSound(s: State, t: nat, progress: Progress)
    requires Sound(s) && t < |s.tickets| && !AnyAbandoned(s, s.tickets[t].authorities)
    requires progress == Saving || progress == Committed
    ensures var s' := s.(preparations := Marked(s.preparations, s.tickets[t].authorities, progress));
            Sound(s') && Grown(s, s') && (Unanswered(s) ==> Unanswered(s'))
  {
    var s' := s.(preparations := Marked(s.preparations, s.tickets[t].authorities, progress));
    assert Backed(s, s.tickets[t]);
    forall k | 0 <= k < |s.preparations|
      ensures PreparationSound(s'.preparations[k]) && Later(s.preparations[k], s'.preparations[k]) {
      assert PreparationSound(s.preparations[k]);
    }
    assert Grown(s, s');
    Carried(s, s');
  }

  lemma SaveCallSound(s: State, t: nat)
    requires Sound(s)
    ensures Sound(SaveCall(s, t)) && Grown(s, SaveCall(s, t))
    ensures Unanswered(s) ==> Unanswered(SaveCall(s, t))
  {
    var s' := SaveCall(s, t);
    if s' != s {
      MarkedSound(s, t, Saving);
      assert Backed(s, s.tickets[t]);
      Carried(s.(preparations := s'.preparations), s');
    }
  }

  lemma SaveCallFlying(s: State, t: nat)
    requires Sound(s) && Flying(s)
    ensures Flying(SaveCall(s, t))
  {
    var s' := SaveCall(s, t);
    if s' != s {
      assert Backed(s, s.tickets[t]);
      SaveCallSound(s, t);
    }
  }

  /** A state that differs only in view, phase, loads, saves in flight and seals. */
  lemma Framed(s: State, s': State)
    requires Sound(s) && s'.preparations == s.preparations && s'.tickets == s.tickets && s'.log == s.log
    requires s'.view.Some? ==> ValidDocument(s'.view.value)
    ensures Sound(s') && Grown(s, s')
  {
    Carried(s, s');
  }

  lemma SaveReplySound(s: State, t: nat, reply: Option<Receipt>)
    requires Sound(s) && Flying(s)
    ensures Sound(SaveReply(s, t, reply)) && Grown(s, SaveReply(s, t, reply))
    ensures Unanswered(s) ==> Unanswered(SaveReply(s, t, reply))
  {
    var s' := SaveReply(s, t, reply);
    if t < |s.tickets| && t in s.saving {
      MarkedSound(s, t, Committed);
      var marked := s.(preparations := Marked(s.preparations, s.tickets[t].authorities, Committed));
      if s'.preparations == s.preparations {
        Framed(s, s');
      } else {
        Framed(marked, s');
      }
    }
  }

  lemma GrownFlying(s: State, s': State)
    requires Flying(s) && Grown(s, s') && s'.saving <= s.saving
    ensures Flying(s')
  {
  }

  /** Everything a reachable state keeps. */
  ghost predicate Reachable(s: State) {
    Sound(s) && Unanswered(s) && Flying(s)
  }

  lemma StepSound(s: State, e: Event)
    requires Reachable(s)
    ensures Sound(Step(s, e))
    ensures Grown(s, Step(s, e))
    ensures Unanswered(Step(s, e))
  {
    match e
    case OnLoadCall => Carried(s, Step(s, e));
    case OnLoadReply(mine, reply) => LoadReplySound(s, mine, reply);
    case OnNewPreparation(command, admissible) => NewPreparationSound(s, command, admissible);
    case OnPrepareCall(k, current) => PrepareCallSound(s, k, current);
    case OnPrepareReply(k, reply, current) =>
      PrepareReplySound(s, k, reply, current);
      PrepareReplyUnanswered(s, k, reply, current);
    case OnDiscardCall(k) => DiscardCallSound(s, k);
    case OnDiscardReply(k, discarded) => DiscardReplySound(s, k, discarded);
    case OnPrepareSave(document, requestId, admissible) => PrepareSaveSound(s, document, requestId, admissible);
    case OnSaveCall(t) => SaveCallSound(s, t);
    case OnSaveReply(t, reply) => SaveReplySound(s, t, reply);
  }

  lemma StepKeeps(s: State, e: Event)
    requires Reachable(s)
    ensures Reachable(Step(s, e))
    ensures Grown(s, Step(s, e))
  {
    StepSound(s, e);
    if e.OnSaveCall? {
      SaveCallFlying(s, e.t);
    } else {
      GrownFlying(s, Step(s, e));
    }
  }
}
