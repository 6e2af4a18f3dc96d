/** The compare-and-swap store of deletion requests, holds, cases and events, all under one lock. */
module LifecycleRepository {
  import opened Wrappers
  import opened LifecycleContracts

  datatype Repo = Repo(
    cases: set<(Id, Id)>,
    requests: map<(Id, StreamId), DeletionRequest>,
    idempotency: map<(Id, Id, Id), StreamId>,
    holds: set<(Id, Id)>,
    events: seq<LifecycleEvent>)

  datatype RepoError = IdempotencyKeyReused | StatusConflict | ChainConflict | LegalHoldActive

  /** The events of one stream, oldest first. */
  function Stream(events: seq<LifecycleEvent>, tenant: Id, id: StreamId): seq<LifecycleEvent> {
    if events == [] then []
    else
      var last := events[|events| - 1];
      Stream(events[..|events| - 1], tenant, id)
        + if last.tenant == tenant && last.payload.requestId == id then [last] else []
  }

  function Tip(events: seq<LifecycleEvent>, tenant: Id, id: StreamId): Option<LifecycleEvent> {
    var stream := Stream(events, tenant, id);
    if stream == [] then None else Some(stream[|stream| - 1])
  }

  function TipHash(events: seq<LifecycleEvent>, tenant: Id, id: StreamId): Option<Hash> {
    match Tip(events, tenant, id)
    case None => None
    case Some(e) => Some(e.eventHash)
  }

  lemma StreamAppend(events: seq<LifecycleEvent>, e: LifecycleEvent, tenant: Id, id: StreamId)
    ensures Stream(events + [e], tenant, id)
         == Stream(events, tenant, id) + if e.tenant == tenant && e.payload.requestId == id then [e] else []
  {
    assert (events + [e])[..|events|] == events;
  }

  predicate SameSubmission(a: DeletionRequest, b: DeletionRequest) {
    a.caseRef == b.caseRef && a.actor == b.actor && a.key == b.key && a.reason == b.reason
  }

  function Commit(repo: Repo, request: DeletionRequest, event: LifecycleEvent): Repo {
    repo.(requests := repo.requests[(request.tenant, request.requestId) := request],
          idempotency := repo.idempotency[(request.tenant, request.actor, request.key) := request.requestId],
          events := repo.events + [event])
  }

  function PersistOn(repo: Repo, request: DeletionRequest, event: LifecycleEvent, expected: Option<DeletionStatus>)
    : (Repo, Result<DeletionRequest, RepoError>)
  {
    var key := (request.tenant, request.requestId);
    if key in repo.requests then
      var current := repo.requests[key];
      if expected.None? then
        (repo, if SameSubmission(current, request) then Success(current) else Failure(IdempotencyKeyReused))
      else if current.status != expected.value then
        (repo, if current.status == request.status || current.status.Completed?
          then Success(current) else Failure(StatusConflict))
      else if event.payload.previous != current.eventHash then (repo, Failure(ChainConflict))
      else (Commit(repo, request, event), Success(request))
    else if expected.Some? then (repo, Failure(StatusConflict))
    else if event.payload.previous.Some? then (repo, Failure(ChainConflict))
    else (Commit(repo, request, event), Success(request))
  }

  function SetHoldOn(repo: Repo, tenant: Id, decision: Id, event: LifecycleEvent): (Repo, Result<bool, RepoError>) {
    if (tenant, decision) in repo.holds then (repo, Success(false))
    else if event.payload.previous != TipHash(repo.events, tenant, event.payload.requestId)
      then (repo, Failure(ChainConflict))
    else (repo.(holds := repo.holds + {(tenant, decision)}, events := repo.events + [event]), Success(true))
  }

  function ReleaseHoldOn(repo: Repo, tenant: Id, decision: Id, event: LifecycleEvent): (Repo, Result<bool, RepoError>) {
    if (tenant, decision) !in repo.holds then (repo, Success(false))
    else if event.payload.previous != TipHash(repo.events, tenant, event.payload.requestId)
      then (repo, Failure(ChainConflict))
    else (repo.(holds := repo.holds - {(tenant, decision)}, events := repo.events + [event]), Success(true))
  }

  function CompleteOn(repo: Repo, request: DeletionRequest, event: LifecycleEvent)
    : (Repo, Result<DeletionRequest, RepoError>)
  {
    var key := (request.tenant, request.requestId);
    if key !in repo.requests then (repo, Failure(StatusConflict))
    else
      var current := repo.requests[key];
      if !current.status.Executing? then
        (repo, if current.status.Completed? then Success(current) else Failure(StatusConflict))
      else if current.decision.None? then (repo, Failure(StatusConflict))
      else if event.payload.previous != current.eventHash then (repo, Failure(ChainConflict))
      else if (request.tenant, current.decision.value) in repo.holds then (repo, Failure(LegalHoldActive))
      else
        (repo.(requests := repo.requests[key := request], events := repo.events + [event],
               cases := repo.cases - {(request.tenant, current.decision.value)}),
         Success(request))
  }

  class InMemoryLifecycleRepository {
    var cases: set<(Id, Id)>
    var requests: map<(Id, StreamId), DeletionRequest>
    var idempotency: map<(Id, Id, Id), StreamId>
    var holds: set<(Id, Id)>
    var events: seq<LifecycleEvent>

    function View(): Repo
      reads this
    {
      Repo(cases, requests, idempotency, holds, events)
    }

    constructor (cases: set<(Id, Id)>)
      ensures View() == Repo(cases, map[], map[], {}, [])
    {
      this.cases := cases;
      requests, idempotency, holds, events := map[], map[], {}, [];
    }

    method AddCase(tenant: Id, decision: Id)
      modifies this
      ensures View() == old(View()).(cases := old(cases) + {(tenant, decision)})
    {
      cases := cases + {(tenant, decision)};
    }

    /** Scans the one event list from its end. */
    method LastEvent(tenant: Id, id: StreamId) returns (r: Option<LifecycleEvent>)
      ensures r == Tip(events, tenant, id)
    {
      var i := |events|;
      assert events[..i] == events;
      while i > 0
        invariant 0 <= i <= |events|
        invariant Tip(events[..i], tenant, id) == Tip(events, tenant, id)
      {
        assert events[..i][..i - 1] == events[..i - 1];
        i := i - 1;
        if events[i].tenant == tenant && events[i].payload.requestId == id {
          return Some(events[i]);
        }
      }
      return None;
    }

    method PersistTransition(request: DeletionRequest, event: LifecycleEvent, expected: Option<DeletionStatus>)
      returns (r: Result<DeletionRequest, RepoError>)
      modifies this
      ensures (View(), r) == PersistOn(old(View()), request, event, expected)
    {
      var key := (request.tenant, request.requestId);
      if key in requests {
        var current := requests[key];
        if expected.None? {
          if !SameSubmission(current, request) {
            return Failure(IdempotencyKeyReused);
          }
          return Success(current);
        }
        if current.status != expected.value {
          if current.status == request.status || current.status == Completed {
            return Success(current);
          }
          return Failure(StatusConflict);
        }
        if event.payload.previous != current.eventHash {
          return Failure(ChainConflict);
        }
      } else if expected.Some? {
        return Failure(StatusConflict);
      } else if event.payload.previous.Some? {
        return Failure(ChainConflict);
      }
      requests := requests[key := request];
      idempotency := idempotency[(request.tenant, request.actor, request.key) := request.requestId];
      events := events + [event];
      return Success(request);
    }

    method SetHold(tenant: Id, decision: Id, event: LifecycleEvent) returns (r: Result<bool, RepoError>)
      modifies this
      ensures (View(), r) == SetHoldOn(old(View()), tenant, decision, event)
    {
      if (tenant, decision) in holds {
        return Success(false);
      }
      var prior := LastEvent(tenant, event.payload.requestId);
      if event.payload.previous != (if prior.None? then None else Some(prior.value.eventHash)) {
        return Failure(ChainConflict);
      }
      holds := holds + {(tenant, decision)};
      events := events + [event];
      return Success(true);
    }

    method ReleaseHold(tenant: Id, decision: Id, event: LifecycleEvent) returns (r: Result<bool, RepoError>)
      modifies this
      ensures (View(), r) == ReleaseHoldOn(old(View()), tenant, decision, event)
    {
      if (tenant, decision) !in holds {
        return Success(false);
      }
      var prior := LastEvent(tenant, event.payload.requestId);
      if event.payload.previous != (if prior.None? then None else Some(prior.value.eventHash)) {
        return Failure(ChainConflict);
      }
      holds := holds - {(tenant, decision)};
      events := events + [event];
      return Success(true);
    }

    method CompleteDeletion(request: DeletionRequest, event: LifecycleEvent)
      returns (r: Result<DeletionRequest, RepoError>)
      modifies this
      ensures (View(), r) == CompleteOn(old(View()), request, event)
    {
      var key := (request.tenant, request.requestId);
      if key !in requests || requests[key].status != Executing {
        if key in requests && requests[key].status == Completed {
          return Success(requests[key]);
        }
        return Failure(StatusConflict);
      }
      var current := requests[key];
      if current.decision.None? {
        return Failure(StatusConflict);
      }
      if event.payload.previous != current.eventHash {
        return Failure(ChainConflict);
      }
      if (request.tenant, current.decision.value) in holds {
        return Failure(LegalHoldActive);
      }
      requests := requests[key := request];
      events := events + [event];
      cases := cases - {(request.tenant, current.decision.value)};
      return Success(request);
    }
  }
}
