/** The evidence client as a state machine: one step for each stretch of code between two
    waits, with the answers of the native side, the requests' fresh identifiers and the
    callers' `isCurrent` as parameters of the steps. */
module EvidenceSteps {
  import opened Wrappers
  import opened JsonValues
  import opened EvidenceRevision
  import opened EvidenceDocuments

  const PENDING_LIMIT := 8

  datatype Phase = Ready | ReconcileRequired

  datatype Progress = Idle | Saving | Committed | Discarded

  const ID_LIMIT := 4096
  const ROWS_LIMIT := 10_000
  const MEMBERS_LIMIT := 100_000
  const SAFE_INTEGER := 9_007_199_254_740_991

  datatype RowHandle = RowHandle(id: nat, eventRef: Text)

  datatype Member = Member(containerId: Text, manifestId: Text, occurrenceId: Text)

  datatype Action = Remove(members: seq<Member>) | Restore(target: Reference)

  /** What a preparation asks the native side to do. */
  datatype Command =
    | Capture(requestId: Text, expectedStore: Store, owner: Owner, rows: seq<RowHandle>)
    | Membership(requestId: Text, expectedStore: Store, reference: Reference, action: Action)
  {
    function Target(): Owner {
      if Capture? then owner else reference.owner
    }
  }

  datatype Preparation = Preparation(command: Command, abandoned: bool, reference: Option<Reference>,
                                     progress: Progress, discarding: bool, prepared: bool)

  /** A save ticket: its request, and the preparation behind each pending reference of its document. */
  datatype Ticket = Ticket(request: SaveRequest, authorities: seq<nat>)

  datatype Seal = Seal(token: Text, preparation: nat)

  /** A prepared reference, with the undo and the counts that a membership change reports. */
  datatype Answer = Answer(reference: Reference, undo: Reference, changedCount: nat, remainingCount: nat)

  datatype Sent =
    | LoadSent
    | PrepareSent(preparation: nat, command: Command)
    | DiscardSent(preparation: nat, reference: Reference)
    | SaveSent(ticket: nat, request: SaveRequest)

  datatype State = State(
    view: Option<Document>, phase: Phase, generation: nat, loading: set<nat>,
    preparations: seq<Preparation>, preparing: set<nat>, seals: seq<Seal>,
    tickets: seq<Ticket>, saving: set<nat>, log: seq<Sent>)

  const START := State(None, Ready, 0, {}, [], {}, [], [], {}, [])

  // ---- the tokens still sealed, oldest first

  function Lookup(seals: seq<Seal>, token: Text): (r: Option<nat>)
    ensures r.Some? ==> Seal(token, r.value) in seals
  {
    if seals == [] then None
    else if seals[0].token == token then Some(seals[0].preparation)
    else Lookup(seals[1..], token)
  }

  function Unseal(seals: seq<Seal>, token: Text): (r: seq<Seal>)
    ensures |r| <= |seals|
    ensures forall x :: x in r ==> x in seals && x.token != token
  {
    if seals == [] then []
    else (if seals[0].token == token then [] else [seals[0]]) + Unseal(seals[1..], token)
  }

  function PutSeal(seals: seq<Seal>, seal: Seal): (r: seq<Seal>)
    ensures |seals| <= |r| <= |seals| + 1
    ensures forall x :: x in r ==> x == seal || x in seals
  {
    if seals == [] then [seal]
    else if seals[0].token == seal.token then [seal] + seals[1..]
    else [seals[0]] + PutSeal(seals[1..], seal)
  }

  function Newest(seals: seq<Seal>): (r: seq<Seal>)
    ensures |r| <= PENDING_LIMIT
    ensures forall x :: x in r ==> x in seals
  {
    if |seals| > PENDING_LIMIT then seals[|seals| - PENDING_LIMIT..] else seals
  }

  // ---- guards

  predicate MayMutate(view: Option<Document>, phase: Phase, target: Owner) {
    view.Some? && phase != ReconcileRequired &&
    var entry := FindCase(view.value.cases, target.caseId);
    && entry.Some? && entry.value.unavailable.None? && target.storeId == view.value.store.storeId
    && var issued := if target.caseId in view.value.issued then Some(view.value.issued[target.caseId]) else None;
       (if entry.value.analysisId.Some? then entry.value.analysisId else issued) == Some(target.analysisId)
  }

  predicate ValidId(id: Text) {
    0 < |id| <= ID_LIMIT
  }

  /** One to ten thousand handles, none twice. */
  predicate ValidRows(rows: seq<RowHandle>) {
    && 0 < |rows| <= ROWS_LIMIT
    && (forall i :: 0 <= i < |rows| ==> rows[i].id <= SAFE_INTEGER && ValidId(rows[i].eventRef))
    && forall i, j :: 0 <= i < j < |rows| ==> rows[i] != rows[j]
  }

  predicate ValidMember(member: Member, base: Reference) {
    && ValidId(member.containerId) && ValidId(member.manifestId) && ValidId(member.occurrenceId)
    && member.containerId == base.containerId && member.manifestId == base.manifest.id
  }

  /** Occurrences of the base list, none twice. */
  predicate ValidMembers(members: seq<Member>, base: Reference) {
    && 0 < |members| <= MEMBERS_LIMIT
    && (forall i :: 0 <= i < |members| ==> ValidMember(members[i], base))
    && forall i, j :: 0 <= i < j < |members| ==> members[i].occurrenceId != members[j].occurrenceId
  }

  /** Is the command well formed? A restore stays with its owner and container. */
  predicate ValidCommand(command: Command) {
    && ValidId(command.requestId)
    && match command
       case Capture(_, _, _, rows) => ValidRows(rows)
       case Membership(_, _, base, action) =>
         match action
         case Remove(members) => ValidMembers(members, base)
         case Restore(target) => target.owner == base.owner && target.containerId == base.containerId
  }

  /** Does the native answer fit the command? */
  predicate Fits(command: Command, answer: Answer) {
    var ref := answer.reference;
    && ref.Pending? && ref.owner == command.Target() && ref.requestId == command.requestId
    && match command
       case Capture(_, _, _, rows) => ref.purpose == NewContainer && ref.memberCount == |rows|
       case Membership(_, _, base, action) =>
         && answer.undo == base && ref.containerId == base.containerId
         && ref.purpose == (if base.Pending? then base.purpose else ReplaceContainer(base.manifest))
         && answer.remainingCount == ref.memberCount
         && match action
            case Remove(members) =>
              answer.changedCount == |members| && answer.remainingCount == base.memberCount - |members|
            case Restore(target) => answer.remainingCount == target.memberCount
  }

  /** A Case that the store could not open travels exactly as it was issued. */
  predicate KeepsUnavailable(view: Document, document: Document) {
    && (forall i :: 0 <= i < |document.cases| && document.cases[i].unavailable.Some? ==>
          var issued := FindCase(view.cases, document.cases[i].id);
          issued.Some? && issued.value.unavailable == document.cases[i].unavailable)
    && (forall i :: 0 <= i < |view.cases| && view.cases[i].unavailable.Some? ==>
          var entry := FindCase(document.cases, view.cases[i].id);
          entry.Some? ==> entry.value.unavailable.Some?)
  }

  /** The preparation that backs a pending reference, if it may still be saved. */
  function Authority(s: State, ref: Reference): Option<nat>
    requires ref.Pending?
  {
    var k := Lookup(s.seals, ref.token);
    if k.Some? && k.value < |s.preparations| && !s.preparations[k.value].abandoned
       && s.preparations[k.value].reference == Some(ref)
    then k else None
  }

  function Authorities(s: State, pending: seq<Reference>): (r: Option<seq<nat>>)
    requires forall i :: 0 <= i < |pending| ==> pending[i].Pending?
    ensures r.Some? ==> |r.value| == |pending|
  {
    if pending == [] then Some([])
    else
      var head, rest := Authority(s, pending[0]), Authorities(s, pending[1..]);
      if head.None? || rest.None? then None else Some([head.value] + rest.value)
  }

  predicate OwnersKept(view: Document, document: Document) {
    forall i :: 0 <= i < |document.cases| ==>
      var current := FindCase(view.cases, document.cases[i].id);
      var prior := AnalysisOf(document.cases[i]);
      current.Some? && prior.Some? && AnalysisOf(current.value).Some? ==> prior == AnalysisOf(current.value)
  }

  // ---- updates of the preparations

  function Marked(preparations: seq<Preparation>, ks: seq<nat>, progress: Progress): (r: seq<Preparation>)
    ensures |r| == |preparations|
    ensures forall k :: 0 <= k < |r| ==>
              r[k] == if k in ks then preparations[k].(progress := progress) else preparations[k]
  {
    seq(|preparations|, k requires 0 <= k < |preparations| =>
      if k in ks then preparations[k].(progress := progress) else preparations[k])
  }

  function UnsealAll(seals: seq<Seal>, pending: seq<Reference>): (r: seq<Seal>)
    requires forall i :: 0 <= i < |pending| ==> pending[i].Pending?
    ensures |r| <= |seals|
    ensures forall x :: x in r ==> x in seals
    ensures forall x, i :: x in r && 0 <= i < |pending| ==> x.token != pending[i].token
    decreases |pending|
  {
    if pending == [] then seals else UnsealAll(Unseal(seals, pending[0].token), pending[1..])
  }

  // ---- the steps

  function LoadCall(s: State): State {
    s.(generation := s.generation + 1, loading := s.loading + {s.generation + 1}, log := s.log + [LoadSent])
  }

  /** The answer to the load numbered `mine`. */
  function LoadReply(s: State, mine: nat, reply: Option<Document>): State {
    if mine !in s.loading then s
    else
      var s1 := s.(loading := s.loading - {mine});
      if reply.None? || !ValidDocument(reply.value) || mine != s.generation then s1
      else if s.view.Some? && SameStore(s.view.value.store, reply.value.store)
              && Compare(reply.value.store.revision, s.view.value.store.revision) < 0 then s1
      else s1.(view := reply, phase := Ready)
  }

  /** A preparation ticket for the given command; its stamp is the view's, and `admissible` says
      that the request is within the byte budget. */
  function NewPreparation(s: State, command: Command, admissible: bool): State {
    if !MayMutate(s.view, s.phase, command.Target()) || !ValidCommand(command) || !admissible then s
    else
      var stamped := command.(expectedStore := s.view.value.store);
      s.(preparations := s.preparations + [Preparation(stamped, false, None, Idle, false, false)])
  }

  function DiscardCall(s: State, k: nat): State {
    if k >= |s.preparations| then s
    else
      var p := s.preparations[k];
      if p.progress == Saving || p.progress == Committed then s
      else
        var p' := p.(abandoned := true);
        if p.reference.None? then s.(preparations := s.preparations[k := p'])
        else
          var seals := if p.reference.value.Pending? then Unseal(s.seals, p.reference.value.token) else s.seals;
          if p.discarding then s.(preparations := s.preparations[k := p'], seals := seals)
          else s.(preparations := s.preparations[k := p'.(discarding := true)], seals := seals,
                  log := s.log + [DiscardSent(k, p.reference.value)])
  }

  function DiscardReply(s: State, k: nat, discarded: bool): State {
    if k >= |s.preparations| || !s.preparations[k].discarding then s
    else
      var p := s.preparations[k].(discarding := false);
      if !discarded then s.(preparations := s.preparations[k := p])
      else
        var seals := if p.reference.Some? && p.reference.value.Pending? then Unseal(s.seals, p.reference.value.token)
                     else s.seals;
        s.(preparations := s.preparations[k := p.(progress := Discarded)], seals := seals)
  }

  function PrepareCall(s: State, k: nat, current: bool): State {
    if k >= |s.preparations| then s
    else
      var p := s.preparations[k];
      if p.abandoned || !current then DiscardCall(s, k)
      else if !MayMutate(s.view, s.phase, p.command.Target())
              || !SameStamp(s.view.value.store, p.command.expectedStore) then s
      else if p.prepared || k in s.preparing then s
      else s.(preparing := s.preparing + {k}, log := s.log + [PrepareSent(k, p.command)])
  }

  function PrepareReply(s: State, k: nat, reply: Option<Answer>, current: bool): State {
    if k >= |s.preparations| || k !in s.preparing then s
    else
      var s1 := s.(preparing := s.preparing - {k});
      var p := s.preparations[k];
      if reply.None? || !Fits(p.command, reply.value) then s1
      else
        var ref := reply.value.reference;
        var s2 := s1.(preparations := s.preparations[k := p.(reference := Some(ref))],
                      seals := Newest(PutSeal(s.seals, Seal(ref.token, k))));
        if !MayMutate(s.view, s.phase, p.command.Target()) || p.abandoned || !current
           || !SameStamp(s.view.value.store, p.command.expectedStore) then DiscardCall(s2, k)
        else s2.(preparations := s2.preparations[k := s2.preparations[k].(prepared := true)])
  }

  /** A save ticket for `document`; `admissible` says that its text is within the size limit. */
  function PrepareSave(s: State, document: Document, requestId: Text, admissible: bool): State {
    if s.view.None? || !ValidDocument(document) || !KeepsUnavailable(s.view.value, document)
       || !SameStamp(document.store, s.view.value.store) || !admissible || requestId == [] then s
    else
      var authorities := Authorities(s, PendingOf(References(document.cases)));
      if authorities.None? then s
      else s.(tickets := s.tickets + [Ticket(SaveRequest(requestId, s.view.value.store, document), authorities.value)])
  }

  predicate AnyAbandoned(s: State, ks: seq<nat>) {
    exists i :: 0 <= i < |ks| && ks[i] < |s.preparations| && s.preparations[ks[i]].abandoned
  }

  function SaveCall(s: State, t: nat): State {
    if t >= |s.tickets| then s
    else
      var ticket := s.tickets[t];
      if s.view.None? || !SameStore(s.view.value.store, ticket.request.expectedStore)
         || !OwnersKept(s.view.value, ticket.request.document)
         || t in s.saving || AnyAbandoned(s, ticket.authorities) then s
      else
        s.(preparations := Marked(s.preparations, ticket.authorities, Saving), saving := s.saving + {t},
           log := s.log + [SaveSent(t, ticket.request)])
  }

  /** Has the view's store moved on from the stamp that the save was based on? */
  predicate Overtaken(s: State, request: SaveRequest, receipt: Receipt) {
    || s.view.None? || !SameStore(s.view.value.store, request.expectedStore)
    || receipt.reconcileRequired
    || Compare(receipt.currentStore.revision, receipt.committedStore.revision) > 0
    || Compare(s.view.value.store.revision, request.expectedStore.revision) > 0
  }

  /** The answer to a save; `None` when the call itself failed. */
  function SaveReply(s: State, t: nat, reply: Option<Receipt>): State {
    if t >= |s.tickets| || t !in s.saving then s
    else
      var s1 := s.(saving := s.saving - {t});
      var Ticket(request, authorities) := s.tickets[t];
      if reply.None? then s1
      else if !ValidReceipt(reply.value, request) then s1.(phase := ReconcileRequired)
      else
        var s2 := s1.(preparations := Marked(s.preparations, authorities, Committed),
                      seals := UnsealAll(s.seals, PendingOf(References(request.document.cases))));
        if Overtaken(s, request, reply.value) then s2.(phase := ReconcileRequired)
        else
          var next := Adopted(request.document, reply.value);
          if next.None? then s2.(phase := ReconcileRequired)
          else s2.(view := next, phase := Ready, generation := s.generation + 1)
  }

  // ---- runs

  datatype Event =
    | OnLoadCall
    | OnLoadReply(mine: nat, loaded: Option<Document>)
    | OnNewPreparation(command: Command, withinBudget: bool)
    | OnPrepareCall(k: nat, current: bool)
    | OnPrepareReply(k: nat, answer: Option<Answer>, current: bool)
    | OnDiscardCall(k: nat)
    | OnDiscardReply(k: nat, discarded: bool)
    | OnPrepareSave(document: Document, requestId: Text, admissible: bool)
    | OnSaveCall(t: nat)
    | OnSaveReply(t: nat, receipt: Option<Receipt>)

  function Step(s: State, e: Event): State {
    match e
    case OnLoadCall => LoadCall(s)
    case OnLoadReply(mine, reply) => LoadReply(s, mine, reply)
    case OnNewPreparation(command, admissible) => NewPreparation(s, command, admissible)
    case OnPrepareCall(k, current) => PrepareCall(s, k, current)
    case OnPrepareReply(k, reply, current) => PrepareReply(s, k, reply, current)
    case OnDiscardCall(k) => DiscardCall(s, k)
    case OnDiscardReply(k, discarded) => DiscardReply(s, k, discarded)
    case OnPrepareSave(document, requestId, admissible) => PrepareSave(s, document, requestId, admissible)
    case OnSaveCall(t) => SaveCall(s, t)
    case OnSaveReply(t, reply) => SaveReply(s, t, reply)
  }

  function Run(s: State, events: seq<Event>): State
    decreases |events|
  {
    if events == [] then s else Run(Step(s, events[0]), events[1..])
  }
}
