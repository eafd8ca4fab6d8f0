/** What an adopted save rewrites in the live store. The user may have edited, reordered,
    replaced or removed containers while the save ran. */
module SessionAdoption {
  import opened Wrappers
  import opened JsonValues
  import opened Sequences
  import opened EvidenceDocuments

  /** A place of the live store that holds a container; `item` is the identity of its Case object. */
  class Slot {
    const item: nat
    const caseId: Text
    var reference: Reference

    constructor (item: nat, caseId: Text, reference: Reference)
      ensures this.item == item && this.caseId == caseId && this.reference == reference
    {
      this.item, this.caseId, this.reference := item, caseId, reference;
    }
  }

  /** The same list of records, as far as the session compares references. */
  predicate SameRecords(a: Reference, b: Reference) {
    && a.Pending? == b.Pending? && a.owner == b.owner && a.containerId == b.containerId
    && a.manifest == b.manifest && a.memberCount == b.memberCount && (a.Pending? && b.Pending? ==> a.token == b.token)
  }

  function Held(live: seq<Slot>): (r: seq<Reference>)
    reads live
    ensures |r| == |live| && forall k :: 0 <= k < |live| ==> r[k] == live[k].reference
  {
    seq(|live|, k requires 0 <= k < |live| reads live => live[k].reference)
  }

  /** The place that a container is found at: the last one that holds it. */
  function Place(references: seq<Reference>, containerId: Text): (p: Option<nat>)
    ensures p.Some? ==> p.value < |references| && references[p.value].containerId == containerId
    ensures p.None? ==> forall k :: 0 <= k < |references| ==> references[k].containerId != containerId
  {
    if references == [] then None
    else
      var last := |references| - 1;
      if references[last].containerId == containerId then Some(last) else Place(references[..last], containerId)
  }

  /** Is the slot still what the save was made from? */
  predicate Published(slot: Slot, was: Reference, document: seq<Reference>, cases: map<Text, nat>) {
    var prior := Confirmed(document, was.containerId);
    prior.Some? && SameRecords(prior.value, was) && slot.caseId in cases && cases[slot.caseId] == slot.item
  }

  /** What slot `k` holds once the references of `evidence` have been adopted. */
  function Adopting(live: seq<Slot>, before: seq<Reference>, document: seq<Reference>, cases: map<Text, nat>,
                    evidence: seq<Reference>, k: nat): Reference
    requires k < |live| == |before|
  {
    var confirmed := Confirmed(evidence, before[k].containerId);
    if confirmed.Some? && Place(before, before[k].containerId) == Some(k)
       && Published(live[k], before[k], document, cases)
    then confirmed.value else before[k]
  }

  /** With every container in one place, as in a valid document, a slot takes the reference that
      the save published for its container if there is one, the slot still holds the records
      that were captured, and its Case is still the captured object. Any other slot, edited,
      added or moved meanwhile, stays exactly as the user left it. */
  method AdoptReferences(live: seq<Slot>, document: seq<Reference>, cases: map<Text, nat>, evidence: seq<Reference>)
    requires Distinct(live)
    modifies live
    ensures forall k :: 0 <= k < |live| ==>
              live[k].reference == Adopting(live, old(Held(live)), document, cases, evidence, k)
    ensures ContainersOnce(old(Held(live))) ==>
              forall k :: 0 <= k < |live| ==>
                var was, published := old(Held(live))[k], Confirmed(evidence, old(Held(live))[k].containerId);
                live[k].reference ==
                if published.Some? && Published(live[k], was, document, cases) then published.value else was
  {
    var before := Held(live);
    if ContainersOnce(before) {
      forall k | 0 <= k < |live| ensures Place(before, before[k].containerId) == Some(k) {
        OnlyPlace(before, k);
      }
    }
    for n := 0 to |evidence|
      invariant forall k :: 0 <= k < |live| ==>
                  live[k].reference == Adopting(live, before, document, cases, evidence[..n], k)
    {
      assert evidence[..n + 1][..n] == evidence[..n];
      var reference := evidence[n];
      var place := Place(before, reference.containerId);
      if place.Some? && Published(live[place.value], before[place.value], document, cases) {
        live[place.value].reference := reference;
      }
    }
    assert evidence[..|evidence|] == evidence;
  }

  lemma {:induction false} OnlyPlace(references: seq<Reference>, k: nat)
    requires ContainersOnce(references) && k < |references|
    ensures Place(references, references[k].containerId) == Some(k)
    decreases |references|
  {
    if k < |references| - 1 {
      OnlyPlace(references[..|references| - 1], k);
    }
  }

  /** An untouched preparation does not survive the adoption of a receipt that settles it. */
  lemma UntouchedIsDurable(live: seq<Slot>, before: seq<Reference>, request: SaveRequest, cases: map<Text, nat>,
                           receipt: Receipt, k: nat)
    requires |live| == |before| && k < |live| && ContainersOnce(before)
    requires ValidReceipt(receipt, request) && Adopted(request.document, receipt).Some?
    requires Published(live[k], before[k], References(request.document.cases), cases)
    ensures Adopting(live, before, References(request.document.cases), cases, receipt.evidence, k).Native?
  {
    OnlyPlace(before, k);
    var references := References(request.document.cases);
    var prior := Confirmed(references, before[k].containerId).value;
    var i :| 0 <= i < |references| && references[i] == prior;
    SettledEverywhere(request.document.cases, receipt, i);
  }

  lemma {:induction false} SettledEverywhere(cases: seq<CaseEntry>, receipt: Receipt, i: nat)
    requires i < |References(cases)| && SettledCases(cases, receipt).Some?
    ensures Settled(References(cases)[i], receipt.evidence).Some?
    decreases |cases|
  {
    var here := |cases[0].containers|;
    if i < here {
      SettledAllAt(cases[0].containers, receipt.evidence, i);
    } else {
      SettledEverywhere(cases[1..], receipt, i - here);
    }
  }
}
