/** The research run: its lifecycle edges, its parts, and the run object the orchestrator mutates. */
module ResearchContracts {
  import opened Wrappers
  import opened DecisionContracts

  // ---------------------------------------------------------------- lifecycle

  datatype ResearchStatus =
    | Created | Searching | SourcesDiscovered | Extracting | EvidenceCompiled
    | Completed | PartiallyCompleted | Failed | Cancelled

  const ALLOWED: set<(ResearchStatus, ResearchStatus)> := {
    (Created, Searching), (Searching, SourcesDiscovered), (SourcesDiscovered, Extracting),
    (Extracting, EvidenceCompiled), (EvidenceCompiled, Completed),
    (Searching, Failed), (SourcesDiscovered, Failed), (Extracting, Failed), (EvidenceCompiled, Failed),
    (Extracting, PartiallyCompleted), (EvidenceCompiled, PartiallyCompleted)}

  const RETRY: set<(ResearchStatus, ResearchStatus)> := {
    (Failed, Searching), (Failed, Extracting), (PartiallyCompleted, Extracting)}

  predicate Cancellable(s: ResearchStatus) {
    !s.Completed? && !s.Cancelled?
  }

  datatype TransitionError = RetryRequired | NotAllowed

  function Transition(source: ResearchStatus, target: ResearchStatus, retry: bool)
    : Result<ResearchStatus, TransitionError>
  {
    if target.Cancelled? && Cancellable(source) then Success(target)
    else if (source, target) in RETRY then if retry then Success(target) else Failure(RetryRequired)
    else if (source, target) !in ALLOWED then Failure(NotAllowed)
    else Success(target)
  }

  /** Some call of `transition` lets the run go from one status to the other. */
  predicate LegalEdge(source: ResearchStatus, target: ResearchStatus) {
    Transition(source, target, false).Success? || Transition(source, target, true).Success?
  }

  // ---------------------------------------------------------------- sources, snapshots, evidence

  datatype SourceStatus =
    | Discovered | Selected | Extracted | DuplicateContent | SkippedLimit
    | Blocked | CitationOnly | ReviewRequired | FailedSource | Rejected

  datatype Reason =
    | SourceLimitReached | SourceSelected | ContentDuplicate | SearchCitationOnly | ConflictingEvidence
    | RetryLimitExceeded | ProviderCircuitOpen | BudgetExceeded | ProviderUnavailable | EmptyExtraction
    | Rejection(code: Id)
    | ProvenanceMissing | ContentTooShort | LoginPage | PaywallDetected | UnsupportedLanguage
    | PromptInjectionSuspected | ContentOutdated | PublicationDateInvalid | ExternalEvidenceUnverified
    | NamedHandoffError(error: HandoffError) | EvidenceHandoffRejected

  /** Publication date as the policy reads it: absent, unreadable, or so many days old. */
  datatype Published = NoDate | BadDate | DaysOld(days: int)

  /** Source ids digest the run and the address; they are taken to be collision free. */
  datatype SourceId = SourceId(url: Id)

  datatype Source = Source(
    id: SourceId, canonicalUrl: Id, domain: Id, rank: int, providerNamed: bool, published: Published,
    status: SourceStatus, reasons: seq<Reason>)

  /**
   What the text rules see of a page: its trimmed length, its significant words, which phrases of the negation
   pairs it has on each side, and whether it asks to sign in or to pay.
   */
  datatype PageText = PageText(
    length: nat, core: set<Id>, positives: set<nat>, negatives: set<nat>, asksLogin: bool, asksPayment: bool)

  datatype Risk = Risk(injectionSuspected: bool, secretRedacted: bool, activeContentRemoved: bool)

  datatype SnapshotId = SnapshotId(source: SourceId, contentHash: Id)

  datatype Snapshot = Snapshot(
    id: SnapshotId, source: SourceId, canonicalUrl: Id, domain: Id, retrievedAt: int, contentHash: Id,
    language: Id, providerNamed: bool, text: PageText, risk: Risk)

  datatype Freshness = UnknownAge | Current | Stale
  datatype SourceType = Primary | Secondary | UnknownType
  datatype ConflictStatus = NotChecked | Contradicted

  datatype Assessment = Assessment(
    freshness: Freshness, sourceType: SourceType, conflict: ConflictStatus, usable: bool, requiresReview: bool,
    reasons: seq<Reason>)

  datatype Evidence = Evidence(
    id: EvidenceId, claimRefs: seq<Id>, source: SourceId, snapshot: SnapshotId, contentHash: Id,
    assessment: Assessment, risk: Risk)

  datatype Operation = SearchOp | ExtractOp
  datatype AttemptStatus = Started | Succeeded | FailedAttempt(reason: Reason)
  datatype Attempt = Attempt(operation: Operation, source: Option<SourceId>, status: AttemptStatus, occurredAt: int)

  /** An error of the run, with the seconds a provider asked to be left alone for. */
  datatype RunError = RunError(reason: Reason, retryAfter: Option<int>)

  // ---------------------------------------------------------------- the audit log

  datatype AuditKind = StatusTransitioned | EgressDecided

  /** A collision-free hash of an audit event. */
  datatype AuditHash = HashOf(event: AuditEvent)

  datatype AuditEvent = AuditEvent(
    number: nat, kind: AuditKind, occurredAt: int, actor: Id, fromStatus: ResearchStatus, toStatus: ResearchStatus,
    payload: Id, previous: Option<AuditHash>)

  // ---------------------------------------------------------------- the run

  datatype Request = Request(
    decisionFile: Id, claimRefs: seq<Id>, maxSearchResults: nat, maxSourcesToExtract: nat, maximumAgeDays: int,
    forceRefresh: bool)
  {
    /** What the request record checks when it is built. */
    predicate Valid() {
      && claimRefs != []
      && 1 <= maxSearchResults <= 20
      && 1 <= maxSourcesToExtract <= maxSearchResults
      && maxSourcesToExtract <= 10
      && 1 <= maximumAgeDays <= 3650
    }
  }

  /** The value of a run: what the repository stores and reads back. */
  datatype RunData = RunData(
    runId: Id, tenant: Id, request: Request, expectedHash: DocHash, status: ResearchStatus, updatedAt: int,
    correlationId: Id, sources: seq<Source>, snapshots: seq<Snapshot>, evidence: seq<Evidence>,
    attempts: seq<Attempt>, errors: seq<RunError>, audit: seq<AuditEvent>, costUnits: nat, attachedTo: Option<Id>)
  {
    function Key(): (Id, Id) { (tenant, runId) }
  }
}
