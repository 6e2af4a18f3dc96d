/** What each service call promises when nobody interferes: its answer, the stored rows and the events it appends. */
module LifecyclePromises {
  import opened Wrappers
  import opened LifecycleContracts
  import opened LifecycleRepository
  import S = LifecycleService

  /** The event extends its stream's tip and says who did what, why and in which context. */
  predicate Says(e: LifecycleEvent, events: seq<LifecycleEvent>, h: Header) {
    && e.tenant == h.tenant && e.payload.requestId == h.stream && e.payload.caseRef == h.caseRef
    && e.payload.kind == h.kind && e.payload.reason == h.reason && e.payload.correlationId == h.correlationId
    && e.payload.actor == h.actor && e.eventHash == HashOf(e.payload)
    && e.payload.eventId == EventId(h.stream, h.kind, e.payload.occurredAt, e.payload.previous)
    && var st := Stream(events, h.tenant, h.stream);
       e.payload.previous == if st == [] then None else Some(st[|st| - 1].eventHash)
  }

  /** One event more on the list. */
  predicate Logged(before: seq<LifecycleEvent>, after: seq<LifecycleEvent>, h: Header) {
    && |after| == |before| + 1 && before <= after && Says(after[|before|], before, h)
  }

  /** The row and its event: the row carries the hash of the event and of the one before. */
  predicate Linked(r: DeletionRequest, e: LifecycleEvent) {
    r.eventHash == Some(e.eventHash) && r.previous == e.payload.previous
  }

  predicate RequestedAlone(
    before: Repo, after: Repo, tenant: Id, actor: Id, decision: Id, reason: Id, key: Id, correlationId: Id,
    r: Result<DeletionRequest, S.ServiceError>)
  {
    var id := DeleteStream(tenant, actor, key);
    if (tenant, id) in before.requests then
      && after == before
      && var known := before.requests[(tenant, id)];
         r == if known.caseRef == CaseRef(tenant, decision) && known.reason == reason then Success(known)
              else Failure(S.KeyReused)
    else if (tenant, decision) !in before.cases then after == before && r == Failure(S.CaseNotFound)
    else
      var held := (tenant, decision) in before.holds;
      var header := Header(tenant, id, CaseRef(tenant, decision), DeletionRequested, reason, correlationId, actor);
      && r.Success?
      && Logged(before.events, after.events, header) && Linked(r.value, after.events[|before.events|])
      && r.value == DeletionRequest(
           tenant, id, Some(decision), CaseRef(tenant, decision), actor, key,
           if held then BlockedByHold else Requested, reason, r.value.requestedAt, None, held,
           r.value.eventHash, r.value.previous)
      && after == before.(requests := before.requests[(tenant, id) := r.value], events := after.events,
                          idempotency := before.idempotency[(tenant, actor, key) := id])
  }

  /** Held back, with one event and nothing gone; or run to its end, with two events and exactly its case gone. */
  predicate ExecutedAlone(
    before: Repo, after: Repo, tenant: Id, id: StreamId, correlationId: Id, r: Result<DeletionRequest, S.ServiceError>)
  {
    if (tenant, id) !in before.requests then after == before && r == Failure(S.CaseNotFound)
    else
      var known := before.requests[(tenant, id)];
      if known.status == Completed then after == before && r == Success(known)
      else
        && known.decision.Some? && r.Success?
        && var target := (tenant, known.decision.value);
           if target in before.holds then BlockedAlone(before, after, known, correlationId, r.value)
           else CompletedAlone(before, after, known, target, correlationId, r.value)
  }

  predicate BlockedAlone(before: Repo, after: Repo, known: DeletionRequest, correlationId: Id, r: DeletionRequest) {
    && Logged(before.events, after.events, HeaderFor(known, DeletionBlocked, correlationId))
    && Linked(r, after.events[|before.events|])
    && r == known.(status := BlockedByHold, holdActive := true, completedAt := None, eventHash := r.eventHash,
                   previous := r.previous)
    && after == before.(requests := before.requests[(known.tenant, known.requestId) := r], events := after.events)
  }

  predicate CompletedAlone(
    before: Repo, after: Repo, known: DeletionRequest, target: (Id, Id), correlationId: Id, r: DeletionRequest)
  {
    && |after.events| == |before.events| + 2
    && Logged(before.events, after.events[..|before.events| + 1], HeaderFor(known, DeletionExecuting, correlationId))
    && Logged(after.events[..|before.events| + 1], after.events, HeaderFor(known, DeletionCompleted, correlationId))
    && Linked(r, after.events[|before.events| + 1]) && r.completedAt.Some?
    && r == known.(status := Completed, holdActive := false, decision := None, completedAt := r.completedAt,
                   eventHash := r.eventHash, previous := r.previous)
    && after == before.(requests := before.requests[(known.tenant, known.requestId) := r], events := after.events,
                        cases := before.cases - {target})
  }

  function HeaderFor(r: DeletionRequest, kind: EventType, correlationId: Id): Header {
    Header(r.tenant, r.requestId, r.caseRef, kind, r.reason, correlationId, r.actor)
  }

  predicate HeldAlone(
    before: Repo, after: Repo, tenant: Id, actor: Id, decision: Id, reason: Id, correlationId: Id,
    r: Result<bool, S.ServiceError>)
  {
    if (tenant, decision) !in before.cases then after == before && r == Failure(S.CaseNotFound)
    else if (tenant, decision) in before.holds then after == before && r == Success(false)
    else
      && r == Success(true)
      && Logged(before.events, after.events, Header(tenant, HoldStream(tenant, decision), CaseRef(tenant, decision),
                                                    HoldPlaced, reason, correlationId, actor))
      && after == before.(holds := before.holds + {(tenant, decision)}, events := after.events)
  }

  predicate ReleasedAlone(
    before: Repo, after: Repo, tenant: Id, actor: Id, decision: Id, correlationId: Id, released: bool)
  {
    if (tenant, decision) !in before.holds then after == before && !released
    else
      && released
      && Logged(before.events, after.events, Header(tenant, HoldStream(tenant, decision), CaseRef(tenant, decision),
                                                    HoldReleased, S.LEGAL_HOLD_RELEASED, correlationId, actor))
      && after == before.(holds := before.holds - {(tenant, decision)}, events := after.events)
  }
}
