/**
 The deletion and legal-hold service as a machine of interleaved calls. Each call is split at its
 repository calls and clock readings; the repository lock only covers one such step, so executors,
 requesters and hold placers race freely between them.
 */
module LifecycleService {
  import opened Wrappers
  import opened LifecycleContracts
  import opened LifecycleRepository

  datatype Call =
    | RequestDeletion(tenant: Id, actor: Id, decision: Id, reason: Id, key: Id, correlationId: Id)
    | ExecuteDeletion(tenant: Id, requestId: StreamId, correlationId: Id)
    | PlaceHold(tenant: Id, actor: Id, decision: Id, reason: Id, correlationId: Id)
    | ReleaseHold(tenant: Id, actor: Id, decision: Id, correlationId: Id)

  datatype ServiceError = KeyReused | CaseNotFound | InvalidDeletionState | Refused(error: RepoError)

  datatype Answer = Stored(request: DeletionRequest) | HoldChanged(changed: bool) | Rejected(error: ServiceError)

  /** The repository write an event is being built for. */
  datatype Goal =
    | Create(request: DeletionRequest)
    | Move(request: DeletionRequest, expected: DeletionStatus)
    | Finish(completed: DeletionRequest, executing: DeletionRequest)
    | Place(decision: Id)
    | Unplace(decision: Id)

  /** Where a call stands: what it does next, with the values it has read so far. */
  datatype Pc =
    | Start(call: Call)
    | CheckCase(call: Call)
    | StampRequest(call: Call)
    | ReadHold(call: Call, requestedAt: int)
    | CheckHold(request: DeletionRequest, correlationId: Id)
    | StampCompletion(executing: DeletionRequest, correlationId: Id)
    | ReadTip(goal: Goal, header: Header)
    | StampEvent(goal: Goal, header: Header, previous: Option<Hash>)
    | Write(goal: Goal, event: LifecycleEvent)
    | Returned(answer: Answer)

  const LEGAL_HOLD_RELEASED: Id := -1

  function RequestHeader(request: DeletionRequest, kind: EventType, correlationId: Id): Header {
    Header(request.tenant, request.requestId, request.caseRef, kind, request.reason, correlationId, request.actor)
  }

  function HoldHeader(tenant: Id, actor: Id, decision: Id, kind: EventType, reason: Id, correlationId: Id): Header {
    Header(tenant, HoldStream(tenant, decision), CaseRef(tenant, decision), kind, reason, correlationId, actor)
  }

  function Blocking(request: DeletionRequest, correlationId: Id): Pc {
    ReadTip(Move(request.WithStatus(BlockedByHold, true, None, false), request.status),
            RequestHeader(request, DeletionBlocked, correlationId))
  }

  /** The first step of each call. */
  function StepStart(repo: Repo, call: Call): Pc {
    match call
    case RequestDeletion(tenant, actor, decision, reason, key, correlationId) =>
      if (tenant, actor, key) in repo.idempotency
        && (tenant, repo.idempotency[(tenant, actor, key)]) in repo.requests then
        var replay := repo.requests[(tenant, repo.idempotency[(tenant, actor, key)])];
        if replay.caseRef != CaseRef(tenant, decision) || replay.reason != reason
        then Returned(Rejected(KeyReused)) else Returned(Stored(replay))
      else CheckCase(call)
    case ExecuteDeletion(tenant, requestId, correlationId) =>
      if (tenant, requestId) !in repo.requests then Returned(Rejected(CaseNotFound))
      else
        var request := repo.requests[(tenant, requestId)];
        if request.status.Completed? then Returned(Stored(request))
        else if request.decision.None? then Returned(Rejected(InvalidDeletionState))
        else CheckHold(request, correlationId)
    case PlaceHold(_, _, _, _, _) => CheckCase(call)
    case ReleaseHold(tenant, actor, decision, correlationId) =>
      ReadTip(Unplace(decision), HoldHeader(tenant, actor, decision, HoldReleased, LEGAL_HOLD_RELEASED, correlationId))
  }

  function StepCheckCase(repo: Repo, call: Call): Pc {
    match call
    case RequestDeletion(tenant, _, decision, _, _, _) =>
      if (tenant, decision) !in repo.cases then Returned(Rejected(CaseNotFound)) else StampRequest(call)
    case PlaceHold(tenant, actor, decision, reason, correlationId) =>
      if (tenant, decision) !in repo.cases then Returned(Rejected(CaseNotFound))
      else ReadTip(Place(decision), HoldHeader(tenant, actor, decision, HoldPlaced, reason, correlationId))
    case _ => Start(call)
  }

  function StepReadHold(repo: Repo, call: Call, requestedAt: int): Pc {
    match call
    case RequestDeletion(tenant, actor, decision, reason, key, correlationId) =>
      var hold := (tenant, decision) in repo.holds;
      var request := DeletionRequest(
        tenant, DeleteStream(tenant, actor, key), Some(decision), CaseRef(tenant, decision), actor, key,
        if hold then BlockedByHold else Requested, reason, requestedAt, None, hold, None, None);
      ReadTip(Create(request), RequestHeader(request, DeletionRequested, correlationId))
    case _ => Start(call)
  }

  function StepCheckHold(repo: Repo, request: DeletionRequest, correlationId: Id): Pc {
    if request.decision.None? then Returned(Rejected(InvalidDeletionState))
    else if (request.tenant, request.decision.value) in repo.holds then Blocking(request, correlationId)
    else
      ReadTip(Move(request.WithStatus(Executing, false, None, false), request.status),
              RequestHeader(request, DeletionExecuting, correlationId))
  }

  /** The one step that takes the repository lock and may change it. */
  function StepWrite(repo: Repo, goal: Goal, event: LifecycleEvent): (Repo, Pc) {
    match goal
    case Create(request) =>
      var (repo', r) := PersistOn(repo, request.WithEvent(event), event, None);
      (repo', if r.Success? then Returned(Stored(r.value)) else Returned(Rejected(Refused(r.error))))
    case Move(request, expected) =>
      var (repo', r) := PersistOn(repo, request.WithEvent(event), event, Some(expected));
      (repo',
       if r.Failure? then Returned(Rejected(Refused(r.error)))
       else if request.status.Executing? then StampCompletion(r.value, event.payload.correlationId)
       else Returned(Stored(r.value)))
    case Finish(completed, executing) =>
      var (repo', r) := CompleteOn(repo, completed.WithEvent(event), event);
      (repo',
       if r.Success? then Returned(Stored(r.value))
       else if r.error.LegalHoldActive? then Blocking(executing, event.payload.correlationId)
       else Returned(Rejected(Refused(r.error))))
    case Place(decision) =>
      var (repo', r) := SetHoldOn(repo, event.tenant, decision, event);
      (repo', if r.Success? then Returned(HoldChanged(r.value)) else Returned(Rejected(Refused(r.error))))
    case Unplace(decision) =>
      var (repo', r) := ReleaseHoldOn(repo, event.tenant, decision, event);
      (repo', if r.Success? then Returned(HoldChanged(r.value)) else Returned(Rejected(Refused(r.error))))
  }

  /** One step of one call; `now` is what the clock shows then. */
  function StepPc(repo: Repo, pc: Pc, now: int): (Repo, Pc) {
    match pc
    case Start(call) => (repo, StepStart(repo, call))
    case CheckCase(call) => (repo, StepCheckCase(repo, call))
    case StampRequest(call) => (repo, ReadHold(call, now))
    case ReadHold(call, requestedAt) => (repo, StepReadHold(repo, call, requestedAt))
    case CheckHold(request, correlationId) => (repo, StepCheckHold(repo, request, correlationId))
    case StampCompletion(executing, correlationId) =>
      (repo, ReadTip(Finish(executing.WithStatus(Completed, false, Some(now), true), executing),
                     RequestHeader(executing, DeletionCompleted, correlationId)))
    case ReadTip(goal, header) => (repo, StampEvent(goal, header, TipHash(repo.events, header.tenant, header.stream)))
    case StampEvent(goal, header, previous) => (repo, Write(goal, BuildEvent(header, previous, now)))
    case Write(goal, event) => StepWrite(repo, goal, event)
    case Returned(_) => (repo, pc)
  }

  /** All calls in flight, over one repository; `clock` is the last time any of them ran. */
  datatype Sys = Sys(repo: Repo, calls: map<nat, Pc>, clock: int)

  datatype Act =
    | Open(id: nat, call: Call)
    | AddCase(tenant: Id, decision: Id)
    | Advance(id: nat, now: int)

  function Apply(s: Sys, act: Act): Sys {
    match act
    case Open(id, call) => if id in s.calls then s else s.(calls := s.calls[id := Start(call)])
    case AddCase(tenant, decision) => s.(repo := s.repo.(cases := s.repo.cases + {(tenant, decision)}))
    case Advance(id, now) =>
      if id !in s.calls then s
      else
        var (repo, pc) := StepPc(s.repo, s.calls[id], now);
        Sys(repo, s.calls[id := pc], now)
  }

  predicate Initial(s: Sys) {
    s.repo.requests == map[] && s.repo.idempotency == map[] && s.repo.holds == {} && s.repo.events == []
      && s.calls == map[]
  }

  /** `ss` lists the states of a run of the service: any calls, any interleaving. */
  ghost predicate History(acts: seq<Act>, ss: seq<Sys>) {
    && |ss| == |acts| + 1
    && Initial(ss[0])
    && forall i {:trigger acts[i]} :: 0 <= i < |acts| ==> ss[i + 1] == Apply(ss[i], acts[i])
  }
}
