/** Deletion requests, legal holds and the hash-linked events that record them. */
module LifecycleContracts {
  import opened Wrappers

  type Id = int

  /**
   Request and hold ids are digests; the digests are taken to be collision free, so an id is the data it
   digests. A deletion request is named by tenant, actor and idempotency key, a hold by tenant and decision.
   */
  datatype StreamId =
    | DeleteStream(tenant: Id, actor: Id, key: Id)
    | HoldStream(tenant: Id, decision: Id)

  datatype CaseRef = CaseRef(tenant: Id, decision: Id)

  datatype DeletionStatus = Requested | BlockedByHold | Executing | Completed | Failed

  datatype EventType =
    | DeletionRequested | DeletionBlocked | DeletionExecuting | DeletionCompleted | HoldPlaced | HoldReleased

  /** A collision-free hash: of an event payload, or of anything else. */
  datatype Hash = HashOf(payload: Payload) | ForeignHash(text: string)

  datatype EventId = EventId(stream: StreamId, kind: EventType, occurredAt: int, chainRef: Option<Hash>)

  /** Exactly the fields the event hash covers. */
  datatype Payload = Payload(
    eventId: EventId, requestId: StreamId, caseRef: CaseRef, kind: EventType, occurredAt: int,
    reason: Id, correlationId: Id, actor: Id, previous: Option<Hash>)

  datatype LifecycleEvent = LifecycleEvent(tenant: Id, payload: Payload, eventHash: Hash)

  datatype DeletionRequest = DeletionRequest(
    tenant: Id, requestId: StreamId, decision: Option<Id>, caseRef: CaseRef, actor: Id, key: Id,
    status: DeletionStatus, reason: Id, requestedAt: int, completedAt: Option<int>, holdActive: bool,
    eventHash: Option<Hash>, previous: Option<Hash>)
  {
    function WithStatus(status: DeletionStatus, holdActive: bool, completedAt: Option<int>, forget: bool)
      : DeletionRequest
    {
      this.(status := status, holdActive := holdActive, completedAt := completedAt,
            decision := if forget then None else decision)
    }

    function WithEvent(event: LifecycleEvent): DeletionRequest {
      this.(eventHash := Some(event.eventHash), previous := event.payload.previous)
    }
  }

  /** What the caller of the event builder supplies. */
  datatype Header = Header(
    tenant: Id, stream: StreamId, caseRef: CaseRef, kind: EventType, reason: Id, correlationId: Id, actor: Id)

  /** The event the service builds from a header, the tip it read and the time it then took. */
  function BuildEvent(h: Header, previous: Option<Hash>, now: int): LifecycleEvent {
    var payload := Payload(EventId(h.stream, h.kind, now, previous), h.stream, h.caseRef, h.kind, now,
                           h.reason, h.correlationId, h.actor, previous);
    LifecycleEvent(h.tenant, payload, HashOf(payload))
  }
}
