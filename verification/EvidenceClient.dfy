/** The evidence client itself: the object whose fields the steps of `EvidenceSteps` describe. */
module EvidenceClient {
  import opened Wrappers
  import opened JsonValues
  import opened EvidenceRevision
  import opened EvidenceDocuments
  import opened EvidenceSteps

  ghost function Prefixed(head: seq<nat>, tail: Option<seq<nat>>): Option<seq<nat>> {
    if tail.None? then None else Some(head + tail.value)
  }

  /** The checks of a request before it becomes a ticket. */
  method CheckCommand(command: Command) returns (ok: bool)
    ensures ok <==> ValidCommand(command)
  {
    ok := ValidId(command.requestId);
    match command {
      case Capture(_, _, _, rows) =>
        var valid := CheckRows(rows);
        ok := ok && valid;
      case Membership(_, _, base, Remove(members)) =>
        var valid := CheckMembers(members, base);
        ok := ok && valid;
      case Membership(_, _, base, Restore(target)) =>
        ok := ok && target.owner == base.owner && target.containerId == base.containerId;
    }
  }

  method CheckRows(rows: seq<RowHandle>) returns (ok: bool)
    ensures ok <==> ValidRows(rows)
  {
    if rows == [] || |rows| > ROWS_LIMIT {
      return false;
    }
    var seen: set<RowHandle> := {};
    for i := 0 to |rows|
      invariant forall j :: 0 <= j < i ==> rows[j].id <= SAFE_INTEGER && ValidId(rows[j].eventRef)
      invariant forall j, k :: 0 <= j < k < i ==> rows[j] != rows[k]
      invariant forall row :: row in seen <==> row in rows[..i]
    {
      if rows[i].id > SAFE_INTEGER || !ValidId(rows[i].eventRef) || rows[i] in seen {
        return false;
      }
      seen := seen + {rows[i]};
    }
    ok := true;
  }

  method CheckMembers(members: seq<Member>, base: Reference) returns (ok: bool)
    ensures ok <==> ValidMembers(members, base)
  {
    if members == [] || |members| > MEMBERS_LIMIT {
      return false;
    }
    var seen: set<Text> := {};
    for i := 0 to |members|
      invariant forall j :: 0 <= j < i ==> ValidMember(members[j], base)
      invariant forall j, k :: 0 <= j < k < i ==> members[j].occurrenceId != members[k].occurrenceId
      invariant forall id :: id in seen <==> exists j :: 0 <= j < i && members[j].occurrenceId == id
    {
      if !ValidMember(members[i], base) || members[i].occurrenceId in seen {
        return false;
      }
      seen := seen + {members[i].occurrenceId};
    }
    ok := true;
  }

  class Client {
    var view: Option<Document>
    var phase: Phase
    var generation: nat
    var loading: set<nat>
    var preparations: seq<Preparation>
    var preparing: set<nat>
    var seals: seq<Seal>
    var tickets: seq<Ticket>
    var saving: set<nat>
    ghost var log: seq<Sent>

    ghost function Now(): State
      reads this
    {
      State(view, phase, generation, loading, preparations, preparing, seals, tickets, saving, log)
    }

    constructor ()
      ensures Now() == START
    {
      view, phase, generation, loading := None, Ready, 0, {};
      preparations, preparing, seals, tickets, saving := [], {}, [], [], {};
      log := [];
    }

    method Load() returns (mine: nat)
      modifies this
      ensures Now() == LoadCall(old(Now())) && mine == generation && mine in loading
    {
      generation := generation + 1;
      mine := generation;
      loading := loading + {mine};
      log := log + [LoadSent];
    }

    /** The rest of `load` once the native side has answered; `None` stands for an error. */
    method Loaded(mine: nat, reply: Option<Document>) returns (result: Option<Document>)
      modifies this
      ensures Now() == LoadReply(old(Now()), mine, reply)
      ensures result.Some? ==> result == reply && view == reply && phase == Ready
      ensures result.None? ==> view == old(view) && phase == old(phase)
    {
      result := None;
      if mine !in loading {
        return;
      }
      loading := loading - {mine};
      if reply.None? || !ValidDocument(reply.value) || mine != generation {
        return;
      }
      if view.Some? && SameStore(view.value.store, reply.value.store)
         && Compare(reply.value.store.revision, view.value.store.revision) < 0 {
        return;
      }
      view, phase := reply, Ready;
      result := view;
    }

    method Issue(command: Command, admissible: bool) returns (ticket: Option<nat>)
      modifies this
      ensures Now() == NewPreparation(old(Now()), command, admissible)
      ensures ticket.Some? <==>
                MayMutate(old(view), old(phase), command.Target()) && ValidCommand(command) && admissible
      ensures ticket.Some? ==> ticket.value == |old(preparations)|
    {
      var valid := CheckCommand(command);
      if !MayMutate(view, phase, command.Target()) || !valid || !admissible {
        return None;
      }
      ticket := Some(|preparations|);
      var stamped := command.(expectedStore := view.value.store);
      preparations := preparations + [Preparation(stamped, false, None, Idle, false, false)];
    }

    /** `discard` up to its wait; `sent` says whether the native side was asked. */
    method Discard(k: nat) returns (sent: bool)
      modifies this
      ensures Now() == DiscardCall(old(Now()), k)
      ensures sent <==> |log| > |old(log)|
    {
      if k >= |preparations| || preparations[k].progress == Saving || preparations[k].progress == Committed {
        return false;
      }
      var captured := preparations[k];
      preparations := preparations[k := captured.(abandoned := true)];
      if captured.reference.None? {
        return false;
      }
      if captured.reference.value.Pending? {
        seals := Unseal(seals, captured.reference.value.token);
      }
      if captured.discarding {
        return false;
      }
      preparations := preparations[k := captured.(abandoned := true, discarding := true)];
      log := log + [DiscardSent(k, captured.reference.value)];
      sent := true;
    }

    method DiscardAnswered(k: nat, discarded: bool)
      modifies this
      ensures Now() == DiscardReply(old(Now()), k, discarded)
    {
      if k >= |preparations| || !preparations[k].discarding {
        return;
      }
      var captured := preparations[k].(discarding := false);
      if discarded {
        captured := captured.(progress := Discarded);
        if captured.reference.Some? && captured.reference.value.Pending? {
          seals := Unseal(seals, captured.reference.value.token);
        }
      }
      preparations := preparations[k := captured];
    }

    method Prepare(k: nat, current: bool) returns (sent: bool)
      modifies this
      ensures Now() == PrepareCall(old(Now()), k, current)
      ensures sent ==> k in preparing
    {
      sent := false;
      if k >= |preparations| {
        return;
      }
      var captured := preparations[k];
      if captured.abandoned || !current {
        var _ := Discard(k);
        return;
      }
      if !MayMutate(view, phase, captured.command.Target())
         || !SameStamp(view.value.store, captured.command.expectedStore) {
        return;
      }
      if captured.prepared || k in preparing {
        return;
      }
      preparing := preparing + {k};
      log := log + [PrepareSent(k, captured.command)];
      sent := true;
    }

    /** Seals a token and lets the oldest ones go. */
    method Remember(token: Text, k: nat)
      requires |seals| <= PENDING_LIMIT
      modifies this`seals
      ensures seals == Newest(PutSeal(old(seals), Seal(token, k)))
    {
      seals := PutSeal(seals, Seal(token, k));
      ghost var sealed := seals;
      while |seals| > PENDING_LIMIT
        invariant |sealed| <= PENDING_LIMIT + 1
        invariant seals == sealed || (|sealed| > PENDING_LIMIT && seals == sealed[1..])
      {
        seals := seals[1..];
      }
    }

    method Prepared(k: nat, reply: Option<Answer>, current: bool) returns (ok: bool)
      requires |seals| <= PENDING_LIMIT
      modifies this
      ensures Now() == PrepareReply(old(Now()), k, reply, current)
      ensures ok ==> k < |preparations| && preparations[k].prepared && !preparations[k].abandoned
    {
      ok := false;
      if k >= |preparations| || k !in preparing {
        return;
      }
      preparing := preparing - {k};
      var captured := preparations[k];
      if reply.None? || !Fits(captured.command, reply.value) {
        return;
      }
      var ref := reply.value.reference;
      preparations := preparations[k := captured.(reference := Some(ref))];
      Remember(ref.token, k);
      if !MayMutate(view, phase, captured.command.Target()) || captured.abandoned || !current
         || !SameStamp(view.value.store, captured.command.expectedStore) {
        var _ := Discard(k);
        return;
      }
      preparations := preparations[k := preparations[k].(prepared := true)];
      ok := true;
    }

    /** The preparations behind the pending references of a document, unless one is missing. */
    method FindAuthorities(refs: seq<Reference>) returns (authorities: Option<seq<nat>>)
      requires forall i :: 0 <= i < |refs| ==> refs[i].Pending?
      ensures authorities == Authorities(Now(), refs)
    {
      var found: seq<nat> := [];
      ghost var all := Authorities(Now(), refs);
      assert refs[0..] == refs && (all.Some? ==> found + all.value == all.value);
      for i := 0 to |refs|
        invariant Authorities(Now(), refs) == Prefixed(found, Authorities(Now(), refs[i..]))
      {
        assert refs[i..][0] == refs[i] && refs[i..][1..] == refs[i + 1..];
        var k := Lookup(seals, refs[i].token);
        if k.None? || k.value >= |preparations| || preparations[k.value].abandoned
           || preparations[k.value].reference != Some(refs[i]) {
          return None;
        }
        ghost var rest := Authorities(Now(), refs[i + 1..]);
        assert rest.Some? ==> found + ([k.value] + rest.value) == (found + [k.value]) + rest.value;
        found := found + [k.value];
      }
      assert refs[|refs|..] == [] && found + [] == found;
      authorities := Some(found);
    }

    method PrepareTicket(document: Document, requestId: Text, admissible: bool) returns (ticket: Option<nat>)
      modifies this
      ensures Now() == PrepareSave(old(Now()), document, requestId, admissible)
      ensures ticket.Some? <==> |tickets| == |old(tickets)| + 1
      ensures ticket.Some? ==>
                && ticket.value == |old(tickets)|
                && tickets[ticket.value].request == SaveRequest(requestId, view.value.store, document)
    {
      ticket := None;
      if view.None? || !ValidDocument(document) || !KeepsUnavailable(view.value, document)
         || !SameStamp(document.store, view.value.store) || !admissible || requestId == [] {
        return;
      }
      var authorities := FindAuthorities(PendingOf(References(document.cases)));
      if authorities.None? {
        return;
      }
      ticket := Some(|tickets|);
      tickets := tickets + [Ticket(SaveRequest(requestId, view.value.store, document), authorities.value)];
    }

    method Mark(ks: seq<nat>, progress: Progress)
      modifies this`preparations
      ensures preparations == Marked(old(preparations), ks, progress)
    {
      for i := 0 to |ks|
        invariant preparations == Marked(old(preparations), ks[..i], progress)
      {
        if ks[i] < |preparations| {
          preparations := preparations[ks[i] := preparations[ks[i]].(progress := progress)];
        }
        assert ks[..i + 1] == ks[..i] + [ks[i]];
      }
      assert ks[..|ks|] == ks;
    }

    method Save(t: nat) returns (sent: bool)
      modifies this
      ensures Now() == SaveCall(old(Now()), t)
      ensures sent ==> t in saving
    {
      sent := false;
      if t >= |tickets| {
        return;
      }
      var Ticket(request, authorities) := tickets[t];
      if view.None? || !SameStore(view.value.store, request.expectedStore)
         || !OwnersKept(view.value, request.document) {
        return;
      }
      if t in saving {
        return;
      }
      for i := 0 to |authorities|
        invariant Now() == old(Now())
        invariant forall j :: 0 <= j < i && authorities[j] < |preparations| ==> !preparations[authorities[j]].abandoned
      {
        if authorities[i] < |preparations| && preparations[authorities[i]].abandoned {
          assert AnyAbandoned(Now(), authorities);
          return;
        }
      }
      Mark(authorities, Saving);
      saving := saving + {t};
      log := log + [SaveSent(t, request)];
      sent := true;
    }

    /** The rest of `save`; a receipt is passed on even when the view has to be reconciled. */
    method Saved(t: nat, reply: Option<Receipt>) returns (result: Option<Receipt>)
      modifies this
      ensures Now() == SaveReply(old(Now()), t, reply)
      ensures result.Some? ==> result == reply && t < |tickets| && ValidReceipt(reply.value, tickets[t].request)
      ensures result.None? ==> view == old(view)
    {
      result := None;
      if t >= |tickets| || t !in saving {
        return;
      }
      saving := saving - {t};
      var Ticket(request, authorities) := tickets[t];
      if reply.None? {
        return;
      }
      if !ValidReceipt(reply.value, request) {
        phase := ReconcileRequired;
        return;
      }
      Mark(authorities, Committed);
      seals := UnsealAll(seals, PendingOf(References(request.document.cases)));
      var adopted := AdoptView(request, reply.value);
      if adopted {
        result := reply;
      }
    }

    /** Moves the view on to the saved document, or asks for reconciliation; `passed` is false
        when the receipt does not fit the document. */
    method AdoptView(request: SaveRequest, receipt: Receipt) returns (passed: bool)
      modifies this`view, this`phase, this`generation
      ensures var s, next := old(Now()), Adopted(request.document, receipt);
              Now() == if Overtaken(s, request, receipt) || next.None? then s.(phase := ReconcileRequired)
                       else s.(view := next, phase := Ready, generation := s.generation + 1)
      ensures !passed ==> view == old(view)
    {
      if view.None? || !SameStore(view.value.store, request.expectedStore) {
        phase := ReconcileRequired;
        return true;
      }
      var advanced := Compare(view.value.store.revision, request.expectedStore.revision) > 0;
      if receipt.reconcileRequired || Compare(receipt.currentStore.revision, receipt.committedStore.revision) > 0
         || advanced {
        phase := ReconcileRequired;
        return true;
      }
      var next := Adopted(request.document, receipt);
      if next.None? {
        phase := ReconcileRequired;
        return false;
      }
      view, phase, generation := next, Ready, generation + 1;
      passed := true;
    }
  }
}
