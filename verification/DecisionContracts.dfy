/** The decision file, as far as attaching evidence to it goes, and the evidence handed over to it. */
module DecisionContracts {
  import opened Wrappers

  type Id = int

  /** Evidence ids digest the run and the content hash; they are taken to be collision free. */
  datatype EvidenceId = EvidenceId(run: Id, contentHash: Id) | OtherEvidence(number: nat)

  datatype EvidenceStatus = Unverified | Conflicting | Outdated | OtherStatus(code: Id)

  /** One compiled item on its way to a decision file. */
  datatype DecisionEvidence = DecisionEvidence(
    id: EvidenceId, run: Id, claimRefs: seq<Id>, status: EvidenceStatus, observedAt: int, contentHash: Id,
    correlationId: Option<Id>)

  /** One evidence entry of a decision file. */
  datatype EvidenceRow = EvidenceRow(
    id: EvidenceId, claimRefs: seq<Id>, sourceRun: Option<Id>, status: EvidenceStatus, observedAt: int, contentHash: Id)

  /** The digest of the sorted (id, hash, status) list, taken to be collision free. */
  datatype HandoffId = HandoffId(items: seq<(EvidenceId, Id, EvidenceStatus)>)

  datatype CaseStatus = Draft | Validation | Review | Approved | BlockedCase

  datatype DocEventKind = Attached(handoff: HandoffId) | Transitioned | OtherEvent(code: Id)

  /** A collision-free hash of a decision audit event. */
  datatype EventHash = HashOfEvent(event: DocEvent)

  datatype DocEvent = DocEvent(
    kind: DocEventKind, occurredAt: int, fromStatus: CaseStatus, toStatus: CaseStatus, previous: Option<EventHash>)

  /** `otherPartsValid` says whether the semantic rules hold of the parts a handoff never touches. */
  datatype Document = Document(
    status: CaseStatus, createdAt: int, updatedAt: int, claims: seq<Id>, evidence: seq<EvidenceRow>,
    events: seq<DocEvent>, otherPartsValid: bool)

  /** A collision-free hash of a whole decision file. */
  datatype DocHash = HashOfDocument(document: Document) | OtherHash(code: Id)

  datatype HandoffError =
    | NoUsableEvidence | MixedResearchRuns | CorrelationContextRequired | DecisionNotFound | DocumentChanged
    | NotDraft | ClaimReferenceNotFound | SemanticError
}
