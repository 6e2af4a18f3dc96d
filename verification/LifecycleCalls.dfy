/** The deletion and legal-hold service called by one caller at a time: then no call ever meets a conflict. */
module LifecycleCalls {
  import opened Wrappers
  import opened LifecycleContracts
  import opened LifecycleRepository
  import S = LifecycleService
  import opened LifecycleSafety
  import P = LifecyclePromises

  class PilotLifecycleService {
    const repository: InMemoryLifecycleRepository

    constructor (repository: InMemoryLifecycleRepository)
      ensures this.repository == repository
    {
      this.repository := repository;
    }

    method Timestamp() returns (now: int) {
      now := *;
    }

    /** An event that extends its stream's tip, stamped after the tip was read. */
    method Event(h: Header) returns (e: LifecycleEvent)
      ensures e == BuildEvent(h, TipHash(repository.events, h.tenant, h.stream), e.payload.occurredAt)
      ensures P.Says(e, repository.events, h)
    {
      var prior := repository.LastEvent(h.tenant, h.stream);
      var previous := if prior.None? then None else Some(prior.value.eventHash);
      var now := Timestamp();
      return BuildEvent(h, previous, now);
    }

    method RequestDeletion(tenant: Id, actor: Id, decision: Id, reason: Id, key: Id, correlationId: Id)
      returns (r: Result<DeletionRequest, S.ServiceError>)
      requires RepoInv(repository.View())
      modifies repository
      ensures RepoInv(repository.View())
      ensures P.RequestedAlone(
                old(repository.View()), repository.View(), tenant, actor, decision, reason, key, correlationId, r)
    {
      ghost var repo := repository.View();
      ghost var id := DeleteStream(tenant, actor, key);
      assert KeyInv(repo, tenant, actor, key) && RequestInv(repo, tenant, id);
      if (tenant, actor, key) in repository.idempotency {
        var replay := repository.requests[(tenant, repository.idempotency[(tenant, actor, key)])];
        if replay.caseRef != CaseRef(tenant, decision) || replay.reason != reason {
          return Failure(S.KeyReused);
        }
        return Success(replay);
      }
      if (tenant, decision) !in repository.cases {
        return Failure(S.CaseNotFound);
      }
      var requestedAt := Timestamp();
      var hold := (tenant, decision) in repository.holds;
      var request := DeletionRequest(
        tenant, DeleteStream(tenant, actor, key), Some(decision), CaseRef(tenant, decision), actor, key,
        if hold then BlockedByHold else Requested, reason, requestedAt, None, hold, None, None);
      var event := Event(S.RequestHeader(request, DeletionRequested, correlationId));
      PersistKeeps(repo, request, event, None);
      var stored := repository.PersistTransition(request.WithEvent(event), event, None);
      return Success(stored.value);
    }

    /** One status change, from the status last seen. */
    method Record(request: DeletionRequest, kind: EventType, correlationId: Id, expected: DeletionStatus)
      returns (r: DeletionRequest)
      requires RepoInv(repository.View())
      requires Known(repository.View(), request) && !expected.Completed?
      requires repository.requests[(request.tenant, request.requestId)].status == expected
      requires (kind == DeletionBlocked && request.status.BlockedByHold?)
               || (kind == DeletionExecuting && request.status.Executing?)
      modifies repository
      ensures RepoInv(repository.View())
      ensures repository.requests == old(repository.requests)[(request.tenant, request.requestId) := r]
      ensures Known(repository.View(), r) && r.status == request.status && r.decision == request.decision
      ensures r.tenant == request.tenant && r.requestId == request.requestId
      ensures repository.cases == old(repository.cases) && repository.holds == old(repository.holds)
      ensures repository.idempotency == old(repository.idempotency)
      ensures P.Logged(old(repository.events), repository.events, P.HeaderFor(request, kind, correlationId))
      ensures P.Linked(r, repository.events[|old(repository.events)|])
      ensures r == request.(eventHash := r.eventHash, previous := r.previous)
    {
      ghost var repo := repository.View();
      var event := Event(S.RequestHeader(request, kind, correlationId));
      assert KeyInv(repo, request.tenant, request.actor, request.key);
      assert RequestInv(repo, request.tenant, request.requestId);
      PersistKeeps(repo, request, event, Some(expected));
      var stored := repository.PersistTransition(request.WithEvent(event), event, Some(expected));
      return stored.value;
    }

    /** Alone, a deletion either is held back, and nothing goes, or runs to its end and takes exactly its case away. */
    method ExecuteDeletion(tenant: Id, requestId: StreamId, correlationId: Id)
      returns (r: Result<DeletionRequest, S.ServiceError>)
      requires RepoInv(repository.View())
      modifies repository
      ensures RepoInv(repository.View())
      ensures P.ExecutedAlone(old(repository.View()), repository.View(), tenant, requestId, correlationId, r)
    {
      hide P.Says, Stream;
      if (tenant, requestId) !in repository.requests {
        return Failure(S.CaseNotFound);
      }
      assert RequestInv(repository.View(), tenant, requestId);
      var request := repository.requests[(tenant, requestId)];
      if request.status == Completed {
        return Success(request);
      }
      if (tenant, request.decision.value) in repository.holds {
        var blocked := Record(request.WithStatus(BlockedByHold, true, None, false), DeletionBlocked, correlationId,
          request.status);
        return Success(blocked);
      }
      var executing := Record(request.WithStatus(Executing, false, None, false), DeletionExecuting, correlationId,
        request.status);
      var now := Timestamp();
      var completed := executing.WithStatus(Completed, false, Some(now), true);
      var event := Event(S.RequestHeader(completed, DeletionCompleted, correlationId));
      ghost var repo := repository.View();
      assert RequestInv(repo, tenant, requestId);
      CompleteKeeps(repo, completed, event);
      var stored := repository.CompleteDeletion(completed.WithEvent(event), event);
      return Success(stored.value);
    }

    /** Alone, placing a hold on a known case always leaves it held, and says nothing about whether it was before. */
    method PlaceLegalHold(tenant: Id, actor: Id, decision: Id, reason: Id, correlationId: Id)
      returns (r: Result<(), S.ServiceError>)
      requires RepoInv(repository.View())
      modifies repository
      ensures RepoInv(repository.View())
      ensures r.Success? <==> (tenant, decision) in old(repository.cases)
      ensures P.HeldAlone(old(repository.View()), repository.View(), tenant, actor, decision, reason, correlationId,
                          if r.Success? then Success((tenant, decision) !in old(repository.holds))
                            else Failure(r.error))
    {
      if (tenant, decision) !in repository.cases {
        return Failure(S.CaseNotFound);
      }
      var event := Event(S.HoldHeader(tenant, actor, decision, HoldPlaced, reason, correlationId));
      ghost var repo := repository.View();
      var placed := repository.SetHold(tenant, decision, event);
      if placed.value {
        HoldWritten(repo, repository.View(), decision, event);
      }
      return Success(());
    }

    method ReleaseLegalHold(tenant: Id, actor: Id, decision: Id, correlationId: Id) returns (released: bool)
      requires RepoInv(repository.View())
      modifies repository
      ensures RepoInv(repository.View())
      ensures P.ReleasedAlone(old(repository.View()), repository.View(), tenant, actor, decision, correlationId,
              released)
    {
      var event := Event(S.HoldHeader(tenant, actor, decision, HoldReleased, S.LEGAL_HOLD_RELEASED, correlationId));
      ghost var repo := repository.View();
      var done := repository.ReleaseHold(tenant, decision, event);
      if done.value {
        HoldWritten(repo, repository.View(), decision, event);
      }
      return done.value;
    }
  }
}
