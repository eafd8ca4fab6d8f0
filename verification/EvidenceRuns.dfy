/** What holds of every run of the evidence client, whatever the native side answers and
    whenever. */
module EvidenceRuns {
  import opened Wrappers
  import opened EvidenceRevision
  import opened EvidenceDocuments
  import opened EvidenceSteps
  import opened EvidenceLaws

  lemma GrownTransitive(a: State, b: State, c: State)
    requires Grown(a, b) && Grown(b, c)
    ensures Grown(a, c)
  {
    forall k | 0 <= k < |a.preparations| ensures Later(a.preparations[k], c.preparations[k]) {
      assert Later(a.preparations[k], b.preparations[k]) && Later(b.preparations[k], c.preparations[k]);
    }
  }

  lemma {:induction false} RunKeeps(s: State, events: seq<Event>)
    requires Reachable(s)
    ensures Reachable(Run(s, events)) && Grown(s, Run(s, events))
    decreases |events|
  {
    if events != [] {
      StepKeeps(s, events[0]);
      RunKeeps(Step(s, events[0]), events[1..]);
      GrownTransitive(s, Step(s, events[0]), Run(s, events));
    }
  }

  lemma StartReachable()
    ensures Reachable(START)
  {
  }

  // ---- a preparation is saved or discarded, never both

  /** The native side gives every token to one preparation only. */
  predicate TokensDiffer(preparations: seq<Preparation>) {
    forall i, j :: 0 <= i < j < |preparations|
      && preparations[i].reference.Some? && preparations[i].reference.value.Pending?
      && preparations[j].reference.Some? && preparations[j].reference.value.Pending?
      ==> preparations[i].reference.value.token != preparations[j].reference.value.token
  }

  /** Over a whole run, no save that was sent names the token of a discard that was sent. */
  lemma DiscardedNeverSaved(events: seq<Event>, i: nat, j: nat, m: nat)
    requires var s := Run(START, events);
             && TokensDiffer(s.preparations) && i < |s.log| && j < |s.log|
             && s.log[i].DiscardSent? && s.log[j].SaveSent?
             && m < |PendingOf(References(s.log[j].request.document.cases))|
    ensures var s := Run(START, events);
            var discarded := s.log[i].reference;
            discarded.Pending? && PendingOf(References(s.log[j].request.document.cases))[m].token != discarded.token
  {
    var s := Run(START, events);
    StartReachable();
    RunKeeps(START, events);
    assert Logged(s, s.log[i]) && Logged(s, s.log[j]);
    var k := s.log[i].preparation;
    assert PreparationSound(s.preparations[k]);
    var ticket := s.tickets[s.log[j].ticket];
    assert Backed(s, ticket);
    var a := ticket.authorities[m];
    assert PreparationSound(s.preparations[a]);
    assert a != k;
    if a < k {
      assert s.preparations[a].reference.value.token != s.preparations[k].reference.value.token;
    } else {
      assert s.preparations[k].reference.value.token != s.preparations[a].reference.value.token;
    }
  }

  /** Once a save that rests on a preparation has been sent, giving that preparation up
      does nothing any more, however the run goes on. */
  lemma SavedNeverDiscarded(before: seq<Event>, after: seq<Event>, j: nat, k: nat)
    requires var s := Run(START, before);
             j < |s.log| && s.log[j].SaveSent? && s.log[j].ticket < |s.tickets|
             && k in s.tickets[s.log[j].ticket].authorities
    ensures var s := Run(Run(START, before), after);
            && DiscardCall(s, k) == s
            && forall i :: 0 <= i < |s.log| && s.log[i].DiscardSent? ==> s.log[i].preparation != k
  {
    var s0 := Run(START, before);
    StartReachable();
    RunKeeps(START, before);
    assert Logged(s0, s0.log[j]);
    var s := Run(s0, after);
    RunKeeps(s0, after);
    assert Later(s0.preparations[k], s.preparations[k]);
    assert PreparationSound(s.preparations[k]);
    forall i | 0 <= i < |s.log| && s.log[i].DiscardSent? ensures s.log[i].preparation != k {
      assert Logged(s, s.log[i]);
    }
  }

  /** Once a discard has been sent, no ticket that rests on the preparation can be sent any
      more, however the run goes on. */
  lemma GivenUpNeverSaved(before: seq<Event>, after: seq<Event>, i: nat, t: nat)
    requires var s := Run(START, before);
             i < |s.log| && s.log[i].DiscardSent?
    requires var s := Run(Run(START, before), after);
             t < |s.tickets| && Run(START, before).log[i].preparation in s.tickets[t].authorities
    ensures var s := Run(Run(START, before), after);
            SaveCall(s, t) == s
  {
    var s0 := Run(START, before);
    StartReachable();
    RunKeeps(START, before);
    assert Logged(s0, s0.log[i]);
    var k := s0.log[i].preparation;
    var s := Run(s0, after);
    RunKeeps(s0, after);
    assert Later(s0.preparations[k], s.preparations[k]);
    assert s.preparations[k].abandoned;
    var authorities := s.tickets[t].authorities;
    var n :| 0 <= n < |authorities| && authorities[n] == k;
    assert AnyAbandoned(s, authorities);
  }

  /** Every resend of a ticket carries the identical request: the identifier, the stamp and
      the document that the ticket was issued with. */
  lemma ResendsAreIdentical(before: seq<Event>, after: seq<Event>, t: nat, j: nat)
    requires t < |Run(START, before).tickets|
    requires var s := Run(Run(START, before), after);
             j < |s.log| && s.log[j].SaveSent? && s.log[j].ticket == t
    ensures Run(Run(START, before), after).log[j].request == Run(START, before).tickets[t].request
  {
    StartReachable();
    RunKeeps(START, before);
    var s0 := Run(START, before);
    RunKeeps(s0, after);
    var s := Run(s0, after);
    assert Logged(s, s.log[j]);
  }

  // ---- the sealed tokens

  /** Seals stay good while nothing that they rest on is given up. */
  lemma SealsStand(s: State, s': State)
    requires Sealed(s) && Grown(s, s') && |s'.seals| <= PENDING_LIMIT
    requires forall x :: x in s'.seals ==> x in s.seals && !s'.preparations[x.preparation].abandoned
    ensures Sealed(s')
  {
    forall x | x in s'.seals ensures SealSound(s', x) {
      assert SealSound(s, x) && Later(s.preparations[x.preparation], s'.preparations[x.preparation]);
    }
  }

  lemma DiscardSeals(s: State, k: nat)
    requires forall x :: x in s.seals ==> SealSound(s, x)
    ensures forall x :: x in DiscardCall(s, k).seals ==> SealSound(DiscardCall(s, k), x)
    ensures |DiscardCall(s, k).seals| <= |s.seals|
  {
    forall x | x in DiscardCall(s, k).seals ensures SealSound(DiscardCall(s, k), x) {
      assert SealSound(s, x);
    }
  }

  /** A fresh seal is good even when the token was sealed before. */
  lemma GivenSeals(s: State, k: nat, ref: Reference)
    requires Sealed(s) && k < |s.preparations| && ref.Pending?
    requires s.preparations[k].reference.None?
    ensures |Given(s, k, ref).seals| <= PENDING_LIMIT
    ensures forall x :: x in Given(s, k, ref).seals ==> SealSound(Given(s, k, ref), x) || x == Seal(ref.token, k)
  {
    forall x | x in Given(s, k, ref).seals
      ensures SealSound(Given(s, k, ref), x) || x == Seal(ref.token, k) {
      if x != Seal(ref.token, k) {
        assert x in s.seals && SealSound(s, x);
      }
    }
  }

  lemma PrepareReplySeals(s: State, k: nat, reply: Option<Answer>, current: bool)
    requires Reachable(s) && Sealed(s)
    ensures Sealed(PrepareReply(s, k, reply, current))
  {
    var s' := PrepareReply(s, k, reply, current);
    if k in s.preparing && reply.Some? && Fits(s.preparations[k].command, reply.value) {
      var ref := reply.value.reference;
      GivenSeals(s, k, ref);
      var given := Given(s, k, ref);
      forall x | x in s'.seals ensures SealSound(s', x) {
        assert x in given.seals;
      }
    } else {
      PrepareReplySound(s, k, reply, current);
      SealsStand(s, s');
    }
  }

  lemma SaveReplySeals(s: State, t: nat, reply: Option<Receipt>)
    requires Reachable(s) && Sealed(s)
    ensures Sealed(SaveReply(s, t, reply))
  {
    SaveReplySound(s, t, reply);
    SealsStand(s, SaveReply(s, t, reply));
  }

  lemma SealsKept(s: State, e: Event)
    requires Reachable(s) && Sealed(s)
    ensures Sealed(Step(s, e))
  {
    match e
    case OnPrepareCall(k, current) => DiscardSeals(s, k);
    case OnDiscardCall(k) => DiscardSeals(s, k);
    case OnPrepareReply(k, reply, current) => PrepareReplySeals(s, k, reply, current);
    case OnSaveReply(t, reply) => SaveReplySeals(s, t, reply);
    case _ =>
      StepKeeps(s, e);
      SealsStand(s, Step(s, e));
  }

  /** Whatever has happened, at most eight preparations may still enter a save ticket, each of
      them prepared and not given up. */
  lemma {:induction false} AtMostEight(s: State, events: seq<Event>)
    requires Reachable(s) && Sealed(s)
    ensures Sealed(Run(s, events))
    decreases |events|
  {
    if events != [] {
      SealsKept(s, events[0]);
      StepKeeps(s, events[0]);
      AtMostEight(Step(s, events[0]), events[1..]);
    }
  }

  // ---- the view

  function Number(s: State): nat
    requires s.view.Some? && Accepted(s.view.value.store.revision)
  {
    Value(s.view.value.store.revision)
  }

  /** The view of `s'` follows that of `s`: in the same store, at no earlier revision. */
  predicate Follows(s: State, s': State) {
    s.view.Some? && Accepted(s.view.value.store.revision) ==>
      && s'.view.Some? && Accepted(s'.view.value.store.revision)
      && (SameStore(s.view.value.store, s'.view.value.store) ==> Number(s) <= Number(s'))
  }

  lemma LoadForward(s: State, mine: nat, reply: Option<Document>)
    ensures Follows(s, LoadReply(s, mine, reply))
  {
    if reply.Some? && ValidDocument(reply.value) && s.view.Some? && Accepted(s.view.value.store.revision) {
      CompareIsNumeric(reply.value.store.revision, s.view.value.store.revision);
    }
  }

  /** A confirmation that is not overtaken carries a revision no earlier than the view's. */
  lemma ReceiptForward(s: State, request: SaveRequest, receipt: Receipt)
    requires s.view.Some? && Accepted(s.view.value.store.revision) && Accepted(request.expectedStore.revision)
    requires ValidReceipt(receipt, request) && !Overtaken(s, request, receipt)
    ensures Number(s) <= Value(receipt.currentStore.revision)
  {
    var expected := request.expectedStore.revision;
    CompareIsNumeric(s.view.value.store.revision, expected);
    CompareIsNumeric(receipt.committedStore.revision, expected);
    CompareIsNumeric(receipt.currentStore.revision, receipt.committedStore.revision);
  }

  lemma SaveView(s: State, t: nat, reply: Option<Receipt>)
    requires t < |s.tickets|
    ensures var s', request := SaveReply(s, t, reply), s.tickets[t].request;
            || s'.view == s.view
            || (reply.Some? && ValidReceipt(reply.value, request) && !Overtaken(s, request, reply.value)
                && s'.view == Adopted(request.document, reply.value) && s'.view.Some?)
  {
  }

  lemma SaveForward(s: State, t: nat, reply: Option<Receipt>)
    requires t < |s.tickets| && Accepted(s.tickets[t].request.expectedStore.revision)
    ensures Follows(s, SaveReply(s, t, reply))
  {
    SaveView(s, t, reply);
    if s.view.Some? && Accepted(s.view.value.store.revision) && SaveReply(s, t, reply).view != s.view {
      ReceiptForward(s, s.tickets[t].request, reply.value);
    }
  }

  lemma StepForward(s: State, e: Event)
    requires Reachable(s)
    ensures Follows(s, Step(s, e))
  {
    match e
    case OnLoadReply(mine, reply) => LoadForward(s, mine, reply);
    case OnSaveReply(t, reply) =>
      if t < |s.tickets| {
        SaveForward(s, t, reply);
      }
    case _ => assert Step(s, e).view == s.view;
  }

  /** Does the view stay in one store and epoch throughout the run? */
  predicate StaysIn(s: State, events: seq<Event>, store: Store)
    decreases |events|
  {
    && s.view.Some? && SameStore(s.view.value.store, store)
    && (events == [] || StaysIn(Step(s, events[0]), events[1..], store))
  }

  /** Within one store and epoch the revision of the view never goes back. */
  lemma {:induction false} ViewNeverGoesBack(s: State, events: seq<Event>, store: Store)
    requires Reachable(s) && StaysIn(s, events, store)
    ensures Run(s, events).view.Some? && Reachable(Run(s, events)) && Number(s) <= Number(Run(s, events))
    decreases |events|
  {
    if events != [] {
      StepForward(s, events[0]);
      StepKeeps(s, events[0]);
      ViewNeverGoesBack(Step(s, events[0]), events[1..], store);
    }
  }

  /** A confirmation that finds the view past the stamp it was based on leaves the view as it
      is and asks for reconciliation; the preparations it confirmed are committed all the same. */
  lemma OvertakenConfirmation(s: State, t: nat, receipt: Receipt)
    requires Reachable(s) && s.view.Some? && t in s.saving && t < |s.tickets|
    requires ValidReceipt(receipt, s.tickets[t].request)
    requires Number(s) > Value(s.tickets[t].request.expectedStore.revision)
             || !SameStore(s.view.value.store, s.tickets[t].request.expectedStore)
    ensures var s' := SaveReply(s, t, Some(receipt));
            && s'.view == s.view && s'.phase == ReconcileRequired
            && forall i :: 0 <= i < |s.tickets[t].authorities| ==>
                 s.tickets[t].authorities[i] < |s'.preparations|
                 && s'.preparations[s.tickets[t].authorities[i]].progress == Committed
  {
    var expected := s.tickets[t].request.expectedStore.revision;
    assert Accepted(expected);
    CompareIsNumeric(s.view.value.store.revision, expected);
    assert Overtaken(s, s.tickets[t].request, receipt);
    ConfirmedIsCommitted(s, t, receipt);
  }

  lemma ConfirmedIsCommitted(s: State, t: nat, receipt: Receipt)
    requires Reachable(s) && t in s.saving && t < |s.tickets| && ValidReceipt(receipt, s.tickets[t].request)
    ensures var s' := SaveReply(s, t, Some(receipt));
            forall i :: 0 <= i < |s.tickets[t].authorities| ==>
              && s.tickets[t].authorities[i] < |s'.preparations|
              && s'.preparations[s.tickets[t].authorities[i]].progress == Committed
  {
    var s' := SaveReply(s, t, Some(receipt));
    assert s'.preparations == Marked(s.preparations, s.tickets[t].authorities, Committed);
    assert Backed(s, s.tickets[t]);
    forall i | 0 <= i < |s.tickets[t].authorities|
      ensures s.tickets[t].authorities[i] < |s'.preparations|
      ensures s'.preparations[s.tickets[t].authorities[i]].progress == Committed {
      assert s.tickets[t].authorities[i] in s.tickets[t].authorities;
    }
  }

  /** While a read is the newest one and still unanswered, the view stands still unless a
      save is adopted; a save that is adopted makes the read stale. */
  lemma {:induction false} NewestRead(s: State, events: seq<Event>)
    ensures s.generation <= Run(s, events).generation
    ensures Run(s, events).generation == s.generation && s.generation in Run(s, events).loading ==>
              s.generation in s.loading && Run(s, events).view == s.view
    decreases |events|
  {
    if events != [] {
      NewestRead(Step(s, events[0]), events[1..]);
    }
  }

  /** A read that is adopted replaces the very view that was there when it was asked for. */
  lemma ReadReplacesWhatItSaw(s: State, between: seq<Event>, reply: Option<Document>)
    requires var asked := LoadCall(s);
             var s1 := Run(asked, between);
             LoadReply(s1, asked.generation, reply).view != s1.view
    ensures Run(LoadCall(s), between).view == s.view
  {
    NewestRead(LoadCall(s), between);
  }
}
