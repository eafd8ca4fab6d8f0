/** The investigation document that the native store and the client exchange. */
module EvidenceDocuments {
  import opened Wrappers
  import opened JsonValues
  import opened EvidenceRevision

  /** The stamp of a store: the compare-and-swap token of every save. */
  datatype Store = Store(storeId: Text, epoch: Text, revision: Text)

  datatype Owner = Owner(storeId: Text, caseId: Text, analysisId: Text)

  datatype Manifest = Manifest(id: Text, sha256: Text)

  datatype Purpose = NewContainer | ReplaceContainer(base: Manifest)

  datatype Reference =
    | Native(owner: Owner, containerId: Text, manifest: Manifest, memberCount: nat)
    | Pending(owner: Owner, containerId: Text, manifest: Manifest, memberCount: nat,
              token: Text, requestId: Text, bytes: nat, expiresAt: Text, purpose: Purpose)

  /** A Case with its evidence containers in document order; `unavailable` carries the
      diagnostic code of a Case that the store could not open. */
  datatype CaseEntry = CaseEntry(id: Text, unavailable: Option<Text>, analysisId: Option<Text>,
                                 containers: seq<Reference>, body: Json)

  /** `issued` gives the analysis of every Case whose evidence is ready. */
  datatype Document = Document(store: Store, cases: seq<CaseEntry>, issued: map<Text, Text>)

  datatype Context = Context(caseId: Text, analysisId: Text)

  datatype SaveRequest = SaveRequest(requestId: Text, expectedStore: Store, document: Document)

  datatype Receipt = Receipt(requestId: Text, committedStore: Store, currentStore: Store, evidence: seq<Reference>,
                             contexts: seq<Context>, issued: map<Text, Text>, reconcileRequired: bool)

  predicate SameStore(a: Store, b: Store) {
    a.storeId == b.storeId && a.epoch == b.epoch
  }

  predicate SameStamp(a: Store, b: Store) {
    SameStore(a, b) && Compare(a.revision, b.revision) == 0
  }

  function FindCase(cases: seq<CaseEntry>, id: Text): Option<CaseEntry> {
    if cases == [] then None
    else if cases[0].id == id then Some(cases[0])
    else FindCase(cases[1..], id)
  }

  /** The analysis that a Case belongs to, by its context or else by its first container. */
  function AnalysisOf(entry: CaseEntry): Option<Text> {
    if entry.analysisId.Some? then entry.analysisId
    else if entry.containers != [] then Some(entry.containers[0].owner.analysisId)
    else None
  }

  function References(cases: seq<CaseEntry>): seq<Reference> {
    if cases == [] then [] else cases[0].containers + References(cases[1..])
  }

  function PendingOf(references: seq<Reference>): (r: seq<Reference>)
    ensures forall i :: 0 <= i < |r| ==> r[i].Pending?
  {
    if references == [] then []
    else (if references[0].Pending? then [references[0]] else []) + PendingOf(references[1..])
  }

  // ---- admission of a document

  predicate OwnedBy(entry: CaseEntry, storeId: Text) {
    forall i :: 0 <= i < |entry.containers| ==>
      var owner := entry.containers[i].owner;
      owner.storeId == storeId && owner.caseId == entry.id
      && (entry.analysisId.Some? ==> entry.analysisId.value == owner.analysisId)
  }

  predicate ContainersOnce(references: seq<Reference>) {
    forall i, j :: 0 <= i < j < |references| ==> references[i].containerId != references[j].containerId
  }

  predicate ValidDocument(d: Document) {
    && Accepted(d.store.revision)
    && (forall i, j :: 0 <= i < j < |d.cases| ==> d.cases[i].id != d.cases[j].id)
    && (forall i :: 0 <= i < |d.cases| ==> OwnedBy(d.cases[i], d.store.storeId))
    && ContainersOnce(References(d.cases))
  }

  /** The loop that refuses a document with a container in two places. */
  method CheckContainers(references: seq<Reference>) returns (ok: bool)
    ensures ok <==> ContainersOnce(references)
  {
    var containers: set<Text> := {};
    for i := 0 to |references|
      invariant ContainersOnce(references[..i])
      invariant forall id :: id in containers <==> exists j :: 0 <= j < i && references[j].containerId == id
    {
      if references[i].containerId in containers {
        return false;
      }
      containers := containers + {references[i].containerId};
    }
    assert references[..|references|] == references;
    ok := true;
  }

  // ---- a confirmed save

  predicate ValidReceipt(receipt: Receipt, request: SaveRequest) {
    && receipt.requestId == request.requestId
    && Accepted(receipt.committedStore.revision) && Accepted(receipt.currentStore.revision)
    && SameStore(receipt.committedStore, request.expectedStore)
    && SameStore(receipt.currentStore, request.expectedStore)
    && Compare(receipt.committedStore.revision, request.expectedStore.revision) >= 0
    && Compare(receipt.currentStore.revision, receipt.committedStore.revision) >= 0
    && (forall i :: 0 <= i < |receipt.evidence| ==>
          receipt.evidence[i].Native? && receipt.evidence[i].owner.storeId == request.expectedStore.storeId)
    && (forall i :: 0 <= i < |receipt.contexts| ==> KnownContext(receipt.contexts[i], request.document.cases))
    && (forall i, j :: 0 <= i < j < |receipt.contexts| ==> receipt.contexts[i].caseId != receipt.contexts[j].caseId)
  }

  predicate KnownContext(context: Context, cases: seq<CaseEntry>) {
    var entry := FindCase(cases, context.caseId);
    entry.Some? && (entry.value.analysisId.Some? ==> entry.value.analysisId.value == context.analysisId)
  }

  /** The reference that the receipt gives a container; the last one listed wins. */
  function Confirmed(evidence: seq<Reference>, containerId: Text): (r: Option<Reference>)
    ensures r.Some? ==> r.value in evidence && r.value.containerId == containerId
  {
    if evidence == [] then None
    else
      var last := evidence[|evidence| - 1];
      if last.containerId == containerId then Some(last) else Confirmed(evidence[..|evidence| - 1], containerId)
  }

  /** A reference after the save; `None` when the save cannot be adopted. */
  function Settled(reference: Reference, evidence: seq<Reference>): Option<Reference> {
    var confirmed := Confirmed(evidence, reference.containerId);
    if confirmed.None? then (if reference.Pending? then None else Some(reference))
    else if confirmed.value.owner != reference.owner then None
    else confirmed
  }

  function SettledAll(references: seq<Reference>, evidence: seq<Reference>): (r: Option<seq<Reference>>)
    ensures r.Some? ==> |r.value| == |references|
  {
    if references == [] then Some([])
    else
      var head, rest := Settled(references[0], evidence), SettledAll(references[1..], evidence);
      if head.None? || rest.None? then None else Some([head.value] + rest.value)
  }

  function ContextOf(contexts: seq<Context>, caseId: Text): Option<Text> {
    if contexts == [] then None
    else if contexts[0].caseId == caseId then Some(contexts[0].analysisId)
    else ContextOf(contexts[1..], caseId)
  }

  function SettledCases(cases: seq<CaseEntry>, receipt: Receipt): (r: Option<seq<CaseEntry>>)
    ensures r.Some? ==> |r.value| == |cases|
  {
    if cases == [] then Some([])
    else
      var containers, rest := SettledAll(cases[0].containers, receipt.evidence), SettledCases(cases[1..], receipt);
      if containers.None? || rest.None? then None
      else
        var context := ContextOf(receipt.contexts, cases[0].id);
        var analysisId := if context.Some? && cases[0].unavailable.None? then context else cases[0].analysisId;
        Some([cases[0].(containers := containers.value, analysisId := analysisId)] + rest.value)
  }

  /** The view that a confirmed save leaves. */
  function Adopted(document: Document, receipt: Receipt): (r: Option<Document>)
    ensures r.Some? ==> ValidDocument(r.value) && r.value.store == receipt.currentStore
  {
    var cases := SettledCases(document.cases, receipt);
    if cases.None? then None
    else
      var next := Document(receipt.currentStore, cases.value, receipt.issued);
      if ValidDocument(next) then Some(next) else None
  }

  // ---- what adoption keeps

  lemma {:induction false} SettledAllAt(references: seq<Reference>, evidence: seq<Reference>, i: nat)
    requires i < |references| && SettledAll(references, evidence).Some?
    ensures Settled(references[i], evidence).Some?
    ensures SettledAll(references, evidence).value[i] == Settled(references[i], evidence).value
  {
    if i > 0 {
      SettledAllAt(references[1..], evidence, i - 1);
    }
  }

  lemma {:induction false} SettledCasesAt(cases: seq<CaseEntry>, receipt: Receipt, i: nat)
    requires i < |cases| && SettledCases(cases, receipt).Some?
    ensures SettledAll(cases[i].containers, receipt.evidence).Some?
    ensures var after := SettledCases(cases, receipt).value[i];
            after.id == cases[i].id && after.body == cases[i].body && after.unavailable == cases[i].unavailable
            && after.containers == SettledAll(cases[i].containers, receipt.evidence).value
  {
    if i > 0 {
      SettledCasesAt(cases[1..], receipt, i - 1);
    }
  }

  /** An adopted save keeps every Case, its authored content and its containers in place,
      under the same owners, and leaves no preparation behind: what was pending carries the
      durable reference of its receipt, and any other reference changes only to one that the
      receipt lists for the same container. */
  lemma AdoptionSettles(request: SaveRequest, receipt: Receipt, i: nat, j: nat)
    requires ValidReceipt(receipt, request) && Adopted(request.document, receipt).Some?
    requires i < |request.document.cases| && j < |request.document.cases[i].containers|
    ensures var before, after := request.document.cases[i], Adopted(request.document, receipt).value.cases;
            && |after| == |request.document.cases|
            && after[i].id == before.id && after[i].body == before.body && |after[i].containers| == |before.containers|
            && var was, now := before.containers[j], after[i].containers[j];
               && now.Native? && now.containerId == was.containerId && now.owner == was.owner
               && (now == was || now in receipt.evidence)
               && (was.Pending? ==> now in receipt.evidence)
  {
    SettledCasesAt(request.document.cases, receipt, i);
    SettledAllAt(request.document.cases[i].containers, receipt.evidence, j);
  }
}
