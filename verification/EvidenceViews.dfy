/** Which views a run of the evidence client can come to. Within a store and epoch the revision
    never goes back; a read of another one is adopted whatever its revision, and so is the read
    that comes back. */
module EvidenceViews {
  import opened Wrappers
  import opened JsonValues
  import opened EvidenceRevision
  import opened EvidenceDocuments
  import opened EvidenceSteps
  import opened EvidenceLaws
  import opened EvidenceRuns

  // ---- a read

  /** The newest read is adopted if and only if its document is valid and, in the store and
      epoch of the view, no older than the view. */
  lemma ReadAdopted(s: State, document: Document)
    requires s.generation in s.loading
    requires s.view.Some? ==> Accepted(s.view.value.store.revision)
    ensures LoadReply(s, s.generation, Some(document)).view == Some(document) <==>
            || s.view == Some(document)
            || (ValidDocument(document)
                && (s.view.Some? && SameStore(s.view.value.store, document.store) ==>
                      Number(s) <= Value(document.store.revision)))
  {
    if s.view.Some? && ValidDocument(document) {
      CompareIsNumeric(document.store.revision, s.view.value.store.revision);
    }
  }

  /** Asking for a read and getting this answer. */
  function Read(s: State, document: Document): seq<Event> {
    [OnLoadCall, OnLoadReply(s.generation + 1, Some(document))]
  }

  lemma ReadStep(s: State, document: Document)
    ensures Run(s, Read(s, document)) == LoadReply(LoadCall(s), s.generation + 1, Some(document))
    ensures Run(s, Read(s, document)).generation == s.generation + 1
  {
    var events := Read(s, document);
    assert events[1..] == [events[1]] && events[1..][1..] == [];
    assert Run(LoadCall(s), events[1..]) == Run(Step(LoadCall(s), events[1]), []);
  }

  lemma ReadLands(s: State, document: Document)
    requires ValidDocument(document) && (s.view.Some? ==> Accepted(s.view.value.store.revision))
    requires s.view.Some? && SameStore(s.view.value.store, document.store) ==>
               Number(s) <= Value(document.store.revision)
    ensures Run(s, Read(s, document)).view == Some(document)
  {
    ReadStep(s, document);
    ReadAdopted(LoadCall(s), document);
  }

  lemma {:induction false} RunAppend(s: State, xs: seq<Event>, ys: seq<Event>)
    ensures Run(s, xs + ys) == Run(Run(s, xs), ys)
    decreases |xs|
  {
    if xs == [] {
      assert xs + ys == ys;
    } else {
      assert (xs + ys)[1..] == xs[1..] + ys;
      RunAppend(Step(s, xs[0]), xs[1..], ys);
    }
  }

  // ---- staying and leaving

  /** Without leaving its store and epoch the view can come to exactly the valid documents
      there whose revision is no earlier. */
  lemma ViewsWithin(s: State, document: Document)
    requires Reachable(s) && s.view.Some? && ValidDocument(document)
    ensures var store := s.view.value.store;
            (exists more :: StaysIn(s, more, store) && Run(s, more).view == Some(document)) <==>
            SameStore(document.store, store) && Number(s) <= Value(document.store.revision)
  {
    var store := s.view.value.store;
    if more :| StaysIn(s, more, store) && Run(s, more).view == Some(document) {
      ViewNeverGoesBack(s, more, store);
      StaysToTheEnd(s, more, store);
    }
    if SameStore(document.store, store) && Number(s) <= Value(document.store.revision) {
      var more := Read(s, document);
      ReadLands(s, document);
      ReadStep(s, document);
      assert more[1..] == [more[1]] && more[1..][1..] == [];
      assert StaysIn(Step(s, more[0]), more[1..], store);
      assert StaysIn(s, more, store);
    }
  }

  lemma {:induction false} StaysToTheEnd(s: State, events: seq<Event>, store: Store)
    requires StaysIn(s, events, store)
    ensures Run(s, events).view.Some? && SameStore(Run(s, events).view.value.store, store)
    decreases |events|
  {
    if events != [] {
      StaysToTheEnd(Step(s, events[0]), events[1..], store);
    }
  }

  /** Only a read takes the view to another store or epoch. */
  lemma OnlyReadsLeave(s: State, e: Event)
    requires Reachable(s) && s.view.Some?
    ensures var s' := Step(s, e);
            s'.view.Some?
            && (!SameStore(s'.view.value.store, s.view.value.store) ==> e.OnLoadReply? && s'.view == e.loaded)
  {
    match e
    case OnLoadReply(mine, reply) =>
    case OnSaveReply(t, reply) =>
      if t < |s.tickets| {
        SavesStay(s, t, reply);
      }
    case _ => assert Step(s, e).view == s.view;
  }

  lemma SavesStay(s: State, t: nat, reply: Option<Receipt>)
    requires t < |s.tickets| && s.view.Some?
    ensures SaveReply(s, t, reply).view.Some?
    ensures SameStore(SaveReply(s, t, reply).view.value.store, s.view.value.store)
  {
    SaveView(s, t, reply);
  }

  /** A run that does not stay in the store has a first departure, and that is the adoption of
      a read of another store or epoch. */
  lemma {:induction false} Departure(s: State, events: seq<Event>, store: Store)
    returns (before: seq<Event>, read: Event, after: seq<Event>)
    requires Reachable(s) && s.view.Some? && SameStore(s.view.value.store, store) && !StaysIn(s, events, store)
    ensures events == before + [read] + after && StaysIn(s, before, store)
    ensures var left := Step(Run(s, before), read);
            read.OnLoadReply? && read.loaded.Some? && left.view == read.loaded
            && !SameStore(left.view.value.store, store)
    decreases |events|
  {
    var next := Step(s, events[0]);
    OnlyReadsLeave(s, events[0]);
    StepKeeps(s, events[0]);
    if SameStore(next.view.value.store, store) {
      before, read, after := Departure(next, events[1..], store);
      assert events == [events[0]] + (before + [read] + after);
      assert ([events[0]] + before)[1..] == before;
      before := [events[0]] + before;
    } else {
      before, read, after := [], events[0], events[1..];
      assert events == [] + [events[0]] + events[1..];
    }
  }

  /** Between two views of one store and epoch the revision drops only if a read of another
      store or epoch was adopted in between. */
  lemma DropsOnlyByLeaving(s: State, events: seq<Event>) returns (before: seq<Event>, read: Event, after: seq<Event>)
    requires Reachable(s) && s.view.Some?
    requires var end := Run(s, events);
             end.view.Some? && Accepted(end.view.value.store.revision) && Number(end) < Number(s)
             && SameStore(end.view.value.store, s.view.value.store)
    ensures events == before + [read] + after
    ensures var left := Step(Run(s, before), read);
            && read.OnLoadReply? && left.view == read.loaded && left.view.Some?
            && !SameStore(left.view.value.store, s.view.value.store)
  {
    if StaysIn(s, events, s.view.value.store) {
      ViewNeverGoesBack(s, events, s.view.value.store);
    }
    before, read, after := Departure(s, events, s.view.value.store);
  }

  /** And leaving is enough: through a read of any other store the view can come to every
      valid document, with any revision. */
  lemma AnyViewByLeaving(s: State, other: Document, document: Document) returns (events: seq<Event>)
    requires Reachable(s) && s.view.Some? && ValidDocument(other) && ValidDocument(document)
    requires !SameStore(other.store, s.view.value.store) && !SameStore(other.store, document.store)
    ensures Run(s, events).view == Some(document)
  {
    var away := Read(s, other);
    ReadLands(s, other);
    var left := Run(s, away);
    ReadLands(left, document);
    events := away + Read(left, document);
    RunAppend(s, away, Read(left, document));
  }

  /** A run from the start that ends in the store and epoch it read first, at an earlier
      revision: read at 5, read of another store, read again at 3. */
  lemma RevisionDrops(a: Text, b: Text, epoch: Text) returns (first: seq<Event>, more: seq<Event>)
    requires a != b
    ensures var s, end := Run(START, first), Run(Run(START, first), more);
            && s.view.Some? && Accepted(s.view.value.store.revision)
            && end.view.Some? && Accepted(end.view.value.store.revision)
            && SameStore(s.view.value.store, end.view.value.store) && Number(s) == 5 && Number(end) == 3
  {
    var five, one, three := Empty(a, epoch, 5), Empty(b, epoch, 1), Empty(a, epoch, 3);
    EmptyIsValid(a, epoch, 5);
    EmptyIsValid(b, epoch, 1);
    EmptyIsValid(a, epoch, 3);
    first := Read(START, five);
    ReadLands(START, five);
    StartReachable();
    RunKeeps(START, first);
    more := AnyViewByLeaving(Run(START, first), one, three);
  }

  function Empty(storeId: Text, epoch: Text, revision: nat): Document {
    Document(Store(storeId, epoch, Digits(revision)), [], map[])
  }

  lemma EmptyIsValid(storeId: Text, epoch: Text, revision: nat)
    requires revision < TWO_TO_64
    ensures ValidDocument(Empty(storeId, epoch, revision))
    ensures Value(Empty(storeId, epoch, revision).store.revision) == revision
  {
    AcceptedRoundTrip(Digits(revision), revision);
  }
}
