/** What the calls of the interleaved machine answer: alone as promised, and in any race one of a few ways. */
module LifecycleAnswers {
  import opened Wrappers
  import opened LifecycleContracts
  import opened LifecycleRepository
  import opened LifecycleService
  import opened LifecycleSafety
  import P = LifecyclePromises

  // ---------------------------------------------------------------- a call whose steps come one after the other

  /** The call's steps at these times. */
  function Alone(repo: Repo, pc: Pc, times: seq<int>): (Repo, Pc)
    decreases |times|
  {
    if times == [] then (repo, pc)
    else
      var (repo', pc') := StepPc(repo, pc, times[0]);
      Alone(repo', pc', times[1..])
  }

  lemma {:induction false} ReturnedStays(repo: Repo, answer: Answer, times: seq<int>)
    ensures Alone(repo, Returned(answer), times) == (repo, Returned(answer))
  {
    if times != [] {
      ReturnedStays(repo, answer, times[1..]);
    }
  }

  /** From reading the tip to the write: three steps, and an event that says what its header says. */
  lemma WriteFollows(repo: Repo, goal: Goal, header: Header, times: seq<int>) returns (event: LifecycleEvent)
    requires |times| >= 3
    ensures P.Says(event, repo.events, header) && WellHashed(event)
    ensures event.tenant == header.tenant && event.payload.requestId == header.stream
    ensures event.payload.kind == header.kind && event.payload.correlationId == header.correlationId
    ensures event.payload.previous == TipHash(repo.events, event.tenant, event.payload.requestId)
    ensures var (repo', pc') := StepWrite(repo, goal, event);
      Alone(repo, ReadTip(goal, header), times) == Alone(repo', pc', times[3..])
  {
    event := BuildEvent(header, TipHash(repo.events, header.tenant, header.stream), times[1]);
    hide StepWrite;
    assert times[1..][1..] == times[2..] && times[2..][1..] == times[3..];
    var stamp := StampEvent(goal, header, TipHash(repo.events, header.tenant, header.stream));
    assert Alone(repo, ReadTip(goal, header), times) == Alone(repo, stamp, times[1..]);
    assert Alone(repo, stamp, times[1..]) == Alone(repo, Write(goal, event), times[2..]);
  }

  /** What a call answers. */
  predicate Answers(call: Call, before: Repo, after: Repo, answer: Answer) {
    match call
    case RequestDeletion(tenant, actor, decision, reason, key, correlationId) =>
      !answer.HoldChanged?
      && P.RequestedAlone(before, after, tenant, actor, decision, reason, key, correlationId, AsRequest(answer))
    case ExecuteDeletion(tenant, id, correlationId) =>
      !answer.HoldChanged? && P.ExecutedAlone(before, after, tenant, id, correlationId, AsRequest(answer))
    case PlaceHold(tenant, actor, decision, reason, correlationId) =>
      !answer.Stored? && P.HeldAlone(before, after, tenant, actor, decision, reason, correlationId, AsChange(answer))
    case ReleaseHold(tenant, actor, decision, correlationId) =>
      answer.HoldChanged? && P.ReleasedAlone(before, after, tenant, actor, decision, correlationId, answer.changed)
  }

  function AsRequest(answer: Answer): Result<DeletionRequest, ServiceError> {
    match answer
    case Stored(request) => Success(request)
    case HoldChanged(_) => Failure(KeyReused)
    case Rejected(error) => Failure(error)
  }

  function AsChange(answer: Answer): Result<bool, ServiceError> {
    match answer
    case Stored(_) => Failure(KeyReused)
    case HoldChanged(changed) => Success(changed)
    case Rejected(error) => Failure(error)
  }

  /** The call is over, with the answer and the store its promise names. */
  predicate Keeps(call: Call, before: Repo, end: (Repo, Pc)) {
    end.1.Returned? && Answers(call, before, end.0, end.1.answer)
  }

  lemma ReleaseAlone(repo: Repo, call: Call, times: seq<int>)
    requires RepoInv(repo) && call.ReleaseHold? && |times| >= 4
    ensures Keeps(call, repo, Alone(repo, Start(call), times))
  {
    hide StepWrite, StepPc;
    var header := HoldHeader(call.tenant, call.actor, call.decision, HoldReleased, LEGAL_HOLD_RELEASED,
      call.correlationId);
    StartsWith(repo, call, times);
    var event := WriteFollows(repo, Unplace(call.decision), header, times[1..]);
    ReleaseWrites(repo, call.decision, event);
    var (repo', pc') := StepWrite(repo, Unplace(call.decision), event);
    ReturnedStays(repo', pc'.answer, times[1..][3..]);
  }

  lemma StartsWith(repo: Repo, call: Call, times: seq<int>)
    requires times != []
    ensures Alone(repo, Start(call), times) == Alone(repo, StepStart(repo, call), times[1..])
  {
  }

  lemma ReleaseWrites(repo: Repo, decision: Id, event: LifecycleEvent)
    requires event.payload.previous == TipHash(repo.events, event.tenant, event.payload.requestId)
    ensures var (repo', pc') := StepWrite(repo, Unplace(decision), event);
      if (event.tenant, decision) in repo.holds then
        && pc' == Returned(HoldChanged(true))
        && repo' == repo.(holds := repo.holds - {(event.tenant, decision)}, events := repo.events + [event])
      else pc' == Returned(HoldChanged(false)) && repo' == repo
  {
  }

  lemma PlaceWrites(repo: Repo, decision: Id, event: LifecycleEvent)
    requires event.payload.previous == TipHash(repo.events, event.tenant, event.payload.requestId)
    ensures var (repo', pc') := StepWrite(repo, Place(decision), event);
      if (event.tenant, decision) !in repo.holds then
        && pc' == Returned(HoldChanged(true))
        && repo' == repo.(holds := repo.holds + {(event.tenant, decision)}, events := repo.events + [event])
      else pc' == Returned(HoldChanged(false)) && repo' == repo
  {
  }

  lemma PlaceAlone(repo: Repo, call: Call, times: seq<int>)
    requires RepoInv(repo) && call.PlaceHold? && |times| >= 5
    ensures Keeps(call, repo, Alone(repo, Start(call), times))
  {
    hide StepWrite;
    StartsWith(repo, call, times);
    CheckCaseNext(repo, call, times[1..]);
    if (call.tenant, call.decision) !in repo.cases {
      ReturnedStays(repo, Rejected(CaseNotFound), times[1..][1..]);
    } else {
      var header := HoldHeader(call.tenant, call.actor, call.decision, HoldPlaced, call.reason, call.correlationId);
      var event := WriteFollows(repo, Place(call.decision), header, times[1..][1..]);
      PlaceWrites(repo, call.decision, event);
      var (repo', pc') := StepWrite(repo, Place(call.decision), event);
      ReturnedStays(repo', pc'.answer, times[1..][1..][3..]);
    }
  }

  lemma CheckCaseNext(repo: Repo, call: Call, times: seq<int>)
    requires times != []
    ensures Alone(repo, CheckCase(call), times) == Alone(repo, StepCheckCase(repo, call), times[1..])
  {
  }

  // ---------------------------------------------------------------- a request alone

  lemma RequestSteps(repo: Repo, call: Call, times: seq<int>) returns (requestedAt: int)
    requires call.RequestDeletion? && |times| >= 2
    ensures Alone(repo, StampRequest(call), times) == Alone(repo, StepReadHold(repo, call, requestedAt), times[2..])
  {
    requestedAt := times[0];
    assert Alone(repo, StampRequest(call), times) == Alone(repo, ReadHold(call, requestedAt), times[1..]);
    assert times[1..][1..] == times[2..];
  }

  lemma CreateWrites(repo: Repo, request: DeletionRequest, event: LifecycleEvent)
    requires RepoInv(repo) && request.requestId.DeleteStream? && (request.tenant, request.requestId) !in repo.requests
    requires event.tenant == request.tenant && event.payload.requestId == request.requestId
    requires event.payload.previous == TipHash(repo.events, event.tenant, event.payload.requestId)
    ensures StepWrite(repo, Create(request), event) ==
            (Commit(repo, request.WithEvent(event), event), Returned(Stored(request.WithEvent(event))))
  {
    assert RequestInv(repo, request.tenant, request.requestId);
  }

  lemma RequestAlone(repo: Repo, call: Call, times: seq<int>)
    requires RepoInv(repo) && call.RequestDeletion? && |times| >= 7
    ensures Keeps(call, repo, Alone(repo, Start(call), times))
  {
    var id := DeleteStream(call.tenant, call.actor, call.key);
    assert KeyInv(repo, call.tenant, call.actor, call.key);
    StartsWith(repo, call, times);
    hide StepWrite, RepoInv, Alone, Stream, TipHash, WellHashed, P.Says;
    if (call.tenant, id) in repo.requests {
      ReturnedStays(repo, StepStart(repo, call).answer, times[1..]);
    } else {
      CheckCaseNext(repo, call, times[1..]);
      if (call.tenant, call.decision) !in repo.cases {
        ReturnedStays(repo, Rejected(CaseNotFound), times[1..][1..]);
      } else {
        RequestGoesOn(repo, call, times[1..][1..]);
      }
    }
  }

  lemma RequestGoesOn(repo: Repo, call: Call, times: seq<int>)
    requires RepoInv(repo) && call.RequestDeletion? && |times| >= 5
    requires (call.tenant, DeleteStream(call.tenant, call.actor, call.key)) !in repo.requests
    requires (call.tenant, call.decision) in repo.cases
    ensures Keeps(call, repo, Alone(repo, StampRequest(call), times))
  {
    hide StepWrite, RepoInv, Alone, Stream, TipHash, WellHashed, P.Says;
    var requestedAt := RequestSteps(repo, call, times);
    var pc := StepReadHold(repo, call, requestedAt);
    var event := WriteFollows(repo, pc.goal, pc.header, times[2..]);
    CreateWrites(repo, pc.goal.request, event);
    var (repo', pc') := StepWrite(repo, pc.goal, event);
    ReturnedStays(repo', pc'.answer, times[2..][3..]);
  }

  // ---------------------------------------------------------------- an execution alone

  lemma MoveWrites(repo: Repo, request: DeletionRequest, known: DeletionRequest, event: LifecycleEvent)
    requires RepoInv(repo) && (known.tenant, known.requestId) in repo.requests
    requires repo.requests[(known.tenant, known.requestId)] == known
    requires request == known.(status := request.status, holdActive := request.holdActive, completedAt := None)
    requires request.status.Executing? || request.status.BlockedByHold?
    requires event.tenant == known.tenant && event.payload.requestId == known.requestId
    requires event.payload.previous == TipHash(repo.events, event.tenant, event.payload.requestId)
    ensures var (repo', pc') := StepWrite(repo, Move(request, known.status), event);
      var key, row := (known.tenant, known.requestId), request.WithEvent(event);
      && repo' == repo.(requests := repo.requests[key := row], events := repo.events + [event])
      && pc' == if request.status.Executing? then StampCompletion(row, event.payload.correlationId)
                else Returned(Stored(row))
  {
    assert RequestInv(repo, known.tenant, known.requestId);
    assert KeyInv(repo, known.tenant, known.actor, known.key);
    assert repo.idempotency == repo.idempotency[(known.tenant, known.actor, known.key) := known.requestId];
  }

  lemma FinishWrites(repo: Repo, known: DeletionRequest, now: int, event: LifecycleEvent)
    requires RepoInv(repo) && (known.tenant, known.requestId) in repo.requests
    requires repo.requests[(known.tenant, known.requestId)] == known && known.status.Executing? && known.decision.Some?
    requires (known.tenant, known.decision.value) !in repo.holds
    requires event.tenant == known.tenant && event.payload.requestId == known.requestId
    requires event.payload.previous == TipHash(repo.events, event.tenant, event.payload.requestId)
    ensures var completed := known.WithStatus(Completed, false, Some(now), true);
      var (repo', pc') := StepWrite(repo, Finish(completed, known), event);
      var key, row := (known.tenant, known.requestId), completed.WithEvent(event);
      && repo' == repo.(requests := repo.requests[key := row], events := repo.events + [event],
                        cases := repo.cases - {(known.tenant, known.decision.value)})
      && pc' == Returned(Stored(row))
  {
    assert RequestInv(repo, known.tenant, known.requestId);
  }

  lemma ExecuteAlone(repo: Repo, call: Call, times: seq<int>)
    requires RepoInv(repo) && call.ExecuteDeletion? && |times| >= 9
    ensures Keeps(call, repo, Alone(repo, Start(call), times))
  {
    StartsWith(repo, call, times);
    assert RequestInv(repo, call.tenant, call.requestId);
    hide StepWrite, RepoInv, Alone, Stream, TipHash, WellHashed, P.Says;
    if (call.tenant, call.requestId) !in repo.requests {
      ReturnedStays(repo, Rejected(CaseNotFound), times[1..]);
    } else {
      var known := repo.requests[(call.tenant, call.requestId)];
      if known.status.Completed? {
        ReturnedStays(repo, Stored(known), times[1..]);
      } else {
        CheckHoldNext(repo, known, call.correlationId, times[1..]);
        if (known.tenant, known.decision.value) in repo.holds {
          BlockGoesOn(repo, call, known, times[1..][1..]);
        } else {
          ExecuteGoesOn(repo, call, known, times[1..][1..]);
        }
      }
    }
  }

  lemma CheckHoldNext(repo: Repo, request: DeletionRequest, correlationId: Id, times: seq<int>)
    requires times != []
    ensures Alone(repo, CheckHold(request, correlationId), times) ==
            Alone(repo, StepCheckHold(repo, request, correlationId), times[1..])
  {
  }

  /** The request this call executes, stored and not finished. */
  predicate Executes(repo: Repo, call: Call, known: DeletionRequest) {
    && call.ExecuteDeletion? && (call.tenant, call.requestId) in repo.requests
    && repo.requests[(call.tenant, call.requestId)] == known
    && known.tenant == call.tenant && known.requestId == call.requestId
    && known.status != Completed && known.decision.Some?
  }

  lemma BlockGoesOn(repo: Repo, call: Call, known: DeletionRequest, times: seq<int>)
    requires RepoInv(repo) && Executes(repo, call, known) && |times| >= 3
    requires (known.tenant, known.decision.value) in repo.holds
    ensures Keeps(call, repo, Alone(repo, StepCheckHold(repo, known, call.correlationId), times))
  {
    hide StepWrite, RepoInv, Alone, Stream, TipHash, WellHashed, P.Says;
    var pc := StepCheckHold(repo, known, call.correlationId);
    var event := WriteFollows(repo, pc.goal, pc.header, times);
    MoveWrites(repo, pc.goal.request, known, event);
    var (repo', pc') := StepWrite(repo, pc.goal, event);
    ReturnedStays(repo', pc'.answer, times[3..]);
  }

  lemma ExecuteGoesOn(repo: Repo, call: Call, known: DeletionRequest, times: seq<int>)
    requires RepoInv(repo) && Executes(repo, call, known) && |times| >= 7
    requires (known.tenant, known.decision.value) !in repo.holds
    ensures Keeps(call, repo, Alone(repo, StepCheckHold(repo, known, call.correlationId), times))
  {
    hide StepWrite, RepoInv, Alone, Stream, TipHash, WellHashed, P.Says;
    var pc := StepCheckHold(repo, known, call.correlationId);
    var event := WriteFollows(repo, pc.goal, pc.header, times);
    MoveWrites(repo, pc.goal.request, known, event);
    MoveKeepsInv(repo, pc.goal, event);
    var repo' := StepWrite(repo, pc.goal, event).0;
    CompleteGoesOn(repo, repo', call, known, event, times[3..]);
  }

  lemma MoveKeepsInv(repo: Repo, goal: Goal, event: LifecycleEvent)
    requires RepoInv(repo) && goal.Move? && (goal.request.tenant, goal.request.requestId) in repo.requests
    requires WellHashed(event) && event.tenant == goal.request.tenant
             && event.payload.requestId == goal.request.requestId
    requires goal.request.status.Executing? && event.payload.kind == DeletionExecuting && !goal.expected.Completed?
    requires var known := repo.requests[(goal.request.tenant, goal.request.requestId)];
      known.status != Completed && goal.request == known.(status := Executing, holdActive := false, completedAt := None)
    ensures RepoInv(StepWrite(repo, goal, event).0)
  {
    assert RequestInv(repo, goal.request.tenant, goal.request.requestId);
    PersistKeeps(repo, goal.request, event, Some(goal.expected));
    hide RepoInv;
  }

  lemma StampNext(repo: Repo, executing: DeletionRequest, correlationId: Id, times: seq<int>)
    requires times != []
    ensures Alone(repo, StampCompletion(executing, correlationId), times) ==
            Alone(repo, ReadTip(Finish(executing.WithStatus(Completed, false, Some(times[0]), true), executing),
                                RequestHeader(executing, DeletionCompleted, correlationId)), times[1..])
  {
  }

  /** The second half of an undisturbed execution. */
  lemma CompleteGoesOn(
    repo: Repo, repo': Repo, call: Call, known: DeletionRequest, event: LifecycleEvent, times: seq<int>)
    requires RepoInv(repo') && Executes(repo, call, known) && |times| >= 4
    requires (known.tenant, known.decision.value) !in repo.holds
    requires P.Says(event, repo.events, P.HeaderFor(known, DeletionExecuting, call.correlationId))
    requires repo' == repo.(
      requests := repo.requests[(known.tenant, known.requestId) :=
                                known.WithStatus(Executing, false, None, false).WithEvent(event)],
      events := repo.events + [event])
    ensures var executing := known.WithStatus(Executing, false, None, false).WithEvent(event);
      Keeps(call, repo, Alone(repo', StampCompletion(executing, call.correlationId), times))
  {
    hide StepWrite, RepoInv, Alone, Stream, TipHash, WellHashed, P.Says;
    var executing := known.WithStatus(Executing, false, None, false).WithEvent(event);
    StampNext(repo', executing, call.correlationId, times);
    var goal := Finish(executing.WithStatus(Completed, false, Some(times[0]), true), executing);
    var header := RequestHeader(executing, DeletionCompleted, call.correlationId);
    var last := WriteFollows(repo', goal, header, times[1..]);
    FinishWrites(repo', executing, times[0], last);
    var (repo'', pc') := StepWrite(repo', goal, last);
    ReturnedStays(repo'', pc'.answer, times[1..][3..]);
    assert repo''.events[..|repo.events| + 1] == repo'.events;
    assert P.CompletedAlone(repo, repo'', known, (known.tenant, known.decision.value), call.correlationId,
      pc'.answer.request);
  }

  // ---------------------------------------------------------------- an undisturbed call in a run of the machine

  /** The call is opened at step i, and from then to j no act but its own steps happens. */
  predicate Undisturbed(acts: seq<Act>, ss: seq<Sys>, i: nat, j: nat, id: nat, call: Call)
    requires |ss| == |acts| + 1
  {
    && i < j <= |acts| && acts[i] == Open(id, call) && id !in ss[i].calls
    && forall m :: i < m < j ==> acts[m].Advance? && acts[m].id == id
  }

  function TimesOf(acts: seq<Act>, i: nat, j: nat): seq<int>
    requires i < j <= |acts| && forall m :: i < m < j ==> acts[m].Advance?
  {
    seq(j - i - 1, n requires 0 <= n < j - i - 1 => acts[i + 1 + n].now)
  }

  lemma {:induction false} AlonePlusOne(repo: Repo, pc: Pc, times: seq<int>, now: int)
    ensures var (repo', pc') := Alone(repo, pc, times);
      Alone(repo, pc, times + [now]) == StepPc(repo', pc', now)
    decreases |times|
  {
    hide StepPc;
    if times != [] {
      var (repo1, pc1) := StepPc(repo, pc, times[0]);
      AlonePlusOne(repo1, pc1, times[1..], now);
      assert (times + [now])[1..] == times[1..] + [now];
    } else {
      assert [now][1..] == [];
    }
  }

  lemma {:induction false} RunIsAlone(acts: seq<Act>, ss: seq<Sys>, i: nat, j: nat, id: nat, call: Call)
    requires History(acts, ss) && Undisturbed(acts, ss, i, j, id, call)
    ensures id in ss[j].calls && (ss[j].repo, ss[j].calls[id]) == Alone(ss[i].repo, Start(call), TimesOf(acts, i, j))
    decreases j
  {
    hide StepPc;
    assert ss[j] == Apply(ss[j - 1], acts[j - 1]);
    if j > i + 1 {
      RunIsAlone(acts, ss, i, j - 1, id, call);
      var times := TimesOf(acts, i, j - 1);
      AlonePlusOne(ss[i].repo, Start(call), times, acts[j - 1].now);
      assert TimesOf(acts, i, j) == times + [acts[j - 1].now];
    }
  }

  lemma {:induction false} AlonePlus(repo: Repo, pc: Pc, times: seq<int>, more: seq<int>)
    requires Alone(repo, pc, times).1.Returned?
    ensures Alone(repo, pc, times + more) == Alone(repo, pc, times)
    decreases |times|
  {
    hide StepPc;
    if times == [] {
      assert times + more == more;
      ReturnedStays(repo, pc.answer, more);
    } else {
      var (repo1, pc1) := StepPc(repo, pc, times[0]);
      AlonePlus(repo1, pc1, times[1..], more);
      assert (times + more)[1..] == times[1..] + more;
    }
  }

  lemma AnyCallAlone(repo: Repo, call: Call, times: seq<int>)
    requires RepoInv(repo) && |times| >= 9
    ensures Keeps(call, repo, Alone(repo, Start(call), times))
  {
    hide RepoInv, Keeps, Alone;
    match call
    case RequestDeletion(_, _, _, _, _, _) => RequestAlone(repo, call, times);
    case ExecuteDeletion(_, _, _) => ExecuteAlone(repo, call, times);
    case PlaceHold(_, _, _, _, _) => PlaceAlone(repo, call, times);
    case ReleaseHold(_, _, _, _) => ReleaseAlone(repo, call, times);
  }

  /**
   A call nobody interrupts is over after nine steps, with the answer and the store the called-alone service promises.
   */
  lemma UndisturbedCallKeeps(acts: seq<Act>, ss: seq<Sys>, i: nat, j: nat, id: nat, call: Call)
    requires History(acts, ss) && Undisturbed(acts, ss, i, j, id, call)
    ensures id in ss[j].calls
    ensures j > i + 9 ==> ss[j].calls[id].Returned?
    ensures ss[j].calls[id].Returned? ==> Answers(call, ss[i].repo, ss[j].repo, ss[j].calls[id].answer)
  {
    RunKeeps(acts, ss, i);
    RunIsAlone(acts, ss, i, j, id, call);
    hide History, Alone, RepoInv, Answers;
    var times := TimesOf(acts, i, j);
    if |times| >= 9 {
      AnyCallAlone(ss[i].repo, call, times);
    } else if ss[j].calls[id].Returned? {
      var more := [0, 0, 0, 0, 0, 0, 0, 0, 0];
      AlonePlus(ss[i].repo, Start(call), times, more);
      AnyCallAlone(ss[i].repo, call, times + more);
    }
  }

  // ---------------------------------------------------------------- answers in any race

  /** What a call of each kind may answer, whatever the others do. */
  predicate AnswerFits(call: Call, answer: Answer) {
    match call
    case RequestDeletion(tenant, actor, decision, reason, key, _) =>
      || (answer.Stored? && answer.request.tenant == tenant && answer.request.caseRef == CaseRef(tenant, decision)
          && answer.request.requestId == DeleteStream(tenant, actor, key) && answer.request.reason == reason)
      || answer in {Rejected(KeyReused), Rejected(CaseNotFound), Rejected(Refused(IdempotencyKeyReused)),
                    Rejected(Refused(ChainConflict))}
    case ExecuteDeletion(tenant, id, _) =>
      || (answer.Stored? && answer.request.tenant == tenant && answer.request.requestId == id
          && answer.request.status in {Completed, BlockedByHold})
      || answer in {Rejected(CaseNotFound), Rejected(Refused(StatusConflict)), Rejected(Refused(ChainConflict))}
    case PlaceHold(_, _, _, _, _) =>
      answer.HoldChanged? || answer in {Rejected(CaseNotFound), Rejected(Refused(ChainConflict))}
    case ReleaseHold(_, _, _, _) => answer.HoldChanged? || answer == Rejected(Refused(ChainConflict))
  }

  predicate GoalFits(call: Call, goal: Goal, tenant: Id, stream: StreamId) {
    match goal
    case Create(r) =>
      && call.RequestDeletion? && tenant == call.tenant && stream == DeleteStream(call.tenant, call.actor, call.key)
      && r.tenant == tenant && r.requestId == stream
      && r.caseRef == CaseRef(call.tenant, call.decision) && r.reason == call.reason
    case Move(r, expected) =>
      && call.ExecuteDeletion? && tenant == call.tenant && stream == call.requestId
      && r.tenant == tenant && r.requestId == stream && (r.status.Executing? || r.status.BlockedByHold?)
    case Finish(completed, executing) =>
      && call.ExecuteDeletion? && tenant == call.tenant && stream == call.requestId
      && completed.tenant == executing.tenant == tenant && completed.requestId == executing.requestId == stream
    case Place(decision) => call.PlaceHold? && tenant == call.tenant && decision == call.decision
    case Unplace(decision) => call.ReleaseHold? && tenant == call.tenant && decision == call.decision
  }

  /** Where a call can be. */
  predicate PcFits(call: Call, pc: Pc) {
    match pc
    case Start(c) => c == call
    case CheckCase(c) => c == call && (call.RequestDeletion? || call.PlaceHold?)
    case StampRequest(c) => c == call && call.RequestDeletion?
    case ReadHold(c, _) => c == call && call.RequestDeletion?
    case CheckHold(request, _) =>
      && call.ExecuteDeletion? && request.tenant == call.tenant && request.requestId == call.requestId
      && request.decision.Some?
    case StampCompletion(executing, _) =>
      call.ExecuteDeletion? && executing.tenant == call.tenant && executing.requestId == call.requestId
    case ReadTip(goal, header) => GoalFits(call, goal, header.tenant, header.stream)
    case StampEvent(goal, header, _) => GoalFits(call, goal, header.tenant, header.stream)
    case Write(goal, event) => GoalFits(call, goal, event.tenant, event.payload.requestId)
    case Returned(answer) => AnswerFits(call, answer)
  }

  lemma WriteFits(repo: Repo, call: Call, goal: Goal, event: LifecycleEvent)
    requires RepoInv(repo) && CallInv(repo, Write(goal, event)) && PcFits(call, Write(goal, event))
    ensures PcFits(call, StepWrite(repo, goal, event).1)
  {
    assert RequestInv(repo, event.tenant, event.payload.requestId);
    hide RepoInv, Stream, AtTip;
  }

  lemma StepFits(repo: Repo, call: Call, pc: Pc, now: int)
    requires RepoInv(repo) && CallInv(repo, pc) && PcFits(call, pc)
    ensures PcFits(call, StepPc(repo, pc, now).1)
  {
    match pc
    case Write(goal, event) => WriteFits(repo, call, goal, event);
    case Start(_) =>
      if call.ExecuteDeletion? {
        assert RequestInv(repo, call.tenant, call.requestId);
      } else if call.RequestDeletion? {
        assert KeyInv(repo, call.tenant, call.actor, call.key);
        assert RequestInv(repo, call.tenant, DeleteStream(call.tenant, call.actor, call.key));
      }
    case _ =>
  }

  /** The call was opened under this id at step n. */
  predicate OpenedAt(acts: seq<Act>, ss: seq<Sys>, n: nat, id: nat, call: Call)
    requires |ss| == |acts| + 1
  {
    n < |acts| && acts[n] == Open(id, call) && id !in ss[n].calls
  }

  lemma {:induction false} CallsFit(acts: seq<Act>, ss: seq<Sys>, n: nat, i: nat, id: nat, call: Call)
    requires History(acts, ss) && n < i <= |acts| && OpenedAt(acts, ss, n, id, call)
    ensures id in ss[i].calls && PcFits(call, ss[i].calls[id])
    decreases i
  {
    assert ss[i] == Apply(ss[i - 1], acts[i - 1]);
    if i > n + 1 {
      CallsFit(acts, ss, n, i - 1, id, call);
      RunKeeps(acts, ss, i - 1);
      var s, act := ss[i - 1], acts[i - 1];
      hide RepoInv, StepPc, PcFits, CallInv;
      if act.Advance? && act.id == id {
        StepFits(s.repo, call, s.calls[id], act.now);
      }
    }
  }

  /**
   In any race a call answers in one of the ways of its kind: an execution with a request that is COMPLETED or
   BLOCKED_BY_HOLD, or a conflict, and never with the refusal of a held case.
   */
  lemma AnswersInAnyRace(acts: seq<Act>, ss: seq<Sys>, n: nat, i: nat, id: nat, call: Call)
    requires History(acts, ss) && n < i <= |acts| && OpenedAt(acts, ss, n, id, call)
    requires id in ss[i].calls && ss[i].calls[id].Returned?
    ensures AnswerFits(call, ss[i].calls[id].answer)
  {
    CallsFit(acts, ss, n, i, id, call);
  }

  /** What the step that answers does: it answers with what is stored then, and a refusal changes nothing. */
  predicate AnswersTruly(call: Call, before: Repo, after: Repo, answer: Answer) {
    match answer
    case Stored(r) => (r.tenant, r.requestId) in after.requests && after.requests[(r.tenant, r.requestId)] == r
    case HoldChanged(changed) =>
      (call.PlaceHold? || call.ReleaseHold?)
      && var target := (call.tenant, call.decision);
         && (target in after.holds <==> call.PlaceHold?)
         && (changed <==> (target in before.holds) != (target in after.holds))
    case Rejected(_) => after == before
  }

  lemma StepAnswersTruly(repo: Repo, call: Call, pc: Pc, now: int)
    requires RepoInv(repo) && CallInv(repo, pc) && PcFits(call, pc)
    requires !pc.Returned? && StepPc(repo, pc, now).1.Returned?
    ensures AnswersTruly(call, repo, StepPc(repo, pc, now).0, StepPc(repo, pc, now).1.answer)
  {
    match pc
    case Start(_) =>
      if call.ExecuteDeletion? {
        assert RequestInv(repo, call.tenant, call.requestId);
      } else if call.RequestDeletion? {
        assert KeyInv(repo, call.tenant, call.actor, call.key);
        assert RequestInv(repo, call.tenant, DeleteStream(call.tenant, call.actor, call.key));
      }
    case Write(goal, event) =>
      assert RequestInv(repo, event.tenant, event.payload.requestId);
      hide RepoInv, Stream, AtTip;
    case _ =>
  }

  /** In any race the answer is true of the store at the step that gives it. */
  lemma AnswersAreTrue(acts: seq<Act>, ss: seq<Sys>, n: nat, i: nat, id: nat, call: Call)
    requires History(acts, ss) && n < i < |acts| && OpenedAt(acts, ss, n, id, call)
    requires id in ss[i].calls && !ss[i].calls[id].Returned?
    requires id in ss[i + 1].calls && ss[i + 1].calls[id].Returned?
    ensures AnswersTruly(call, ss[i].repo, ss[i + 1].repo, ss[i + 1].calls[id].answer)
  {
    CallsFit(acts, ss, n, i, id, call);
    RunKeeps(acts, ss, i);
    assert ss[i + 1] == Apply(ss[i], acts[i]);
    hide RepoInv, StepPc, PcFits, CallInv, AnswersTruly;
    StepAnswersTruly(ss[i].repo, call, ss[i].calls[id], acts[i].now);
  }

  // ---------------------------------------------------------------- an execution with its stream to itself

  /** No act but the call's own changes the stream from step i to step j. */
  ghost predicate OnlyWriter(acts: seq<Act>, ss: seq<Sys>, i: nat, j: nat, id: nat, tenant: Id, stream: StreamId)
    requires |ss| == |acts| + 1 && i <= j <= |acts|
  {
    forall m :: i <= m < j && !(acts[m].Advance? && acts[m].id == id) ==>
      Stream(ss[m + 1].repo.events, tenant, stream) == Stream(ss[m].repo.events, tenant, stream)
  }

  predicate StatusIs(repo: Repo, tenant: Id, stream: StreamId, status: DeletionStatus) {
    (tenant, stream) in repo.requests && repo.requests[(tenant, stream)].status == status
  }

  predicate GoalOnTip(repo: Repo, goal: Goal, tenant: Id, stream: StreamId) {
    match goal
    case Move(r, expected) => StatusIs(repo, tenant, stream, expected) && expected != Completed
    case Finish(_, executing) => StatusIs(repo, tenant, stream, Executing) && executing.status == Executing
    case _ => false
  }

  /** The stored request is the answer, and its last event is the completion or the blocking. */
  predicate Settled(repo: Repo, tenant: Id, stream: StreamId, answer: Answer) {
    if (tenant, stream) !in repo.requests then answer == Rejected(CaseNotFound)
    else
      var st := Stream(repo.events, tenant, stream);
      && answer == Stored(repo.requests[(tenant, stream)]) && st != []
      && answer.request.status in {Completed, BlockedByHold}
      && st[|st| - 1].payload.kind ==
         if answer.request.status == Completed then DeletionCompleted else DeletionBlocked
  }

  /** What an execution has read is still so. */
  predicate OnTip(repo: Repo, pc: Pc, tenant: Id, stream: StreamId) {
    match pc
    case Start(call) => call.ExecuteDeletion? && call.tenant == tenant && call.requestId == stream
    case CheckHold(request, _) =>
      && request.tenant == tenant && request.requestId == stream && request.decision.Some?
      && StatusIs(repo, tenant, stream, request.status) && request.status != Completed
    case StampCompletion(executing, _) =>
      && executing.tenant == tenant && executing.requestId == stream
      && StatusIs(repo, tenant, stream, Executing) && executing.status == Executing
    case ReadTip(goal, header) =>
      header.tenant == tenant && header.stream == stream && GoalOnTip(repo, goal, tenant, stream)
    case StampEvent(goal, header, previous) =>
      && header.tenant == tenant && header.stream == stream && GoalOnTip(repo, goal, tenant, stream)
      && previous == TipHash(repo.events, tenant, stream)
    case Write(goal, event) =>
      && event.tenant == tenant && event.payload.requestId == stream && GoalOnTip(repo, goal, tenant, stream)
      && event.payload.previous == TipHash(repo.events, tenant, stream)
    case Returned(answer) => Settled(repo, tenant, stream, answer)
    case _ => false
  }

  /** A step of another call that does not touch the stream leaves its request alone. */
  lemma OtherKeepsRow(s: Sys, act: Act, tenant: Id, stream: StreamId)
    requires Inv(s)
    requires Stream(Apply(s, act).repo.events, tenant, stream) == Stream(s.repo.events, tenant, stream)
    ensures var repo, repo', key := s.repo, Apply(s, act).repo, (tenant, stream);
      && (key in repo.requests <==> key in repo'.requests)
      && (key in repo.requests ==> repo'.requests[key] == repo.requests[key])
  {
    hide RepoInv, Stream, StepWrite, CallInv;
    if act.Advance? && act.id in s.calls && s.calls[act.id].Write? {
      var goal, event := s.calls[act.id].goal, s.calls[act.id].event;
      StreamAppend(s.repo.events, event, tenant, stream);
      assert CallInv(s.repo, s.calls[act.id]);
      WriteTouchesItsStream(s.repo, goal, event, tenant, stream);
    }
  }

  /** A write changes a request only with an event on its stream. */
  lemma WriteTouchesItsStream(repo: Repo, goal: Goal, event: LifecycleEvent, tenant: Id, stream: StreamId)
    requires CallInv(repo, Write(goal, event))
    ensures var repo', key := StepWrite(repo, goal, event).0, (tenant, stream);
      || ((key in repo.requests <==> key in repo'.requests)
          && (key in repo.requests ==> repo'.requests[key] == repo.requests[key]))
      || (repo'.events == repo.events + [event] && event.tenant == tenant && event.payload.requestId == stream)
  {
    hide IdentityOk, WellHashed, SeenStatus, TipHash;
  }

  lemma OtherKeepsTip(s: Sys, act: Act, pc: Pc, tenant: Id, stream: StreamId)
    requires Inv(s) && OnTip(s.repo, pc, tenant, stream)
    requires Stream(Apply(s, act).repo.events, tenant, stream) == Stream(s.repo.events, tenant, stream)
    ensures OnTip(Apply(s, act).repo, pc, tenant, stream)
  {
    OtherKeepsRow(s, act, tenant, stream);
    hide Inv, Apply, Stream;
  }

  lemma WriteOnTip(repo: Repo, goal: Goal, event: LifecycleEvent, tenant: Id, stream: StreamId)
    requires RepoInv(repo) && CallInv(repo, Write(goal, event)) && OnTip(repo, Write(goal, event), tenant, stream)
    ensures OnTip(StepWrite(repo, goal, event).0, StepWrite(repo, goal, event).1, tenant, stream)
  {
    assert RequestInv(repo, tenant, stream);
    StreamAppend(repo.events, event, tenant, stream);
    hide RepoInv, Stream, Chain, KeyInv, HoldInv;
    if goal.Move? {
      MoveOnTip(repo, goal, event, tenant, stream);
    } else {
      FinishOnTip(repo, goal, event, tenant, stream);
    }
    hide RequestInv, OnTip, StepWrite;
  }

  lemma MoveOnTip(repo: Repo, goal: Goal, event: LifecycleEvent, tenant: Id, stream: StreamId)
    requires RequestInv(repo, tenant, stream) && goal.Move?
    requires CallInv(repo, Write(goal, event)) && OnTip(repo, Write(goal, event), tenant, stream)
    requires Stream(repo.events + [event], tenant, stream) == Stream(repo.events, tenant, stream) + [event]
    ensures OnTip(StepWrite(repo, goal, event).0, StepWrite(repo, goal, event).1, tenant, stream)
  {
    hide Stream, Chain;
  }

  lemma FinishOnTip(repo: Repo, goal: Goal, event: LifecycleEvent, tenant: Id, stream: StreamId)
    requires RequestInv(repo, tenant, stream) && goal.Finish?
    requires CallInv(repo, Write(goal, event)) && OnTip(repo, Write(goal, event), tenant, stream)
    requires Stream(repo.events + [event], tenant, stream) == Stream(repo.events, tenant, stream) + [event]
    ensures OnTip(StepWrite(repo, goal, event).0, StepWrite(repo, goal, event).1, tenant, stream)
  {
    hide Stream, Chain;
  }

  lemma OwnKeepsTip(repo: Repo, pc: Pc, now: int, tenant: Id, stream: StreamId)
    requires RepoInv(repo) && CallInv(repo, pc) && OnTip(repo, pc, tenant, stream)
    ensures OnTip(StepPc(repo, pc, now).0, StepPc(repo, pc, now).1, tenant, stream)
  {
    assert RequestInv(repo, tenant, stream);
    match pc
    case Write(goal, event) => WriteOnTip(repo, goal, event, tenant, stream);
    case _ =>
  }

  lemma WriterBefore(acts: seq<Act>, ss: seq<Sys>, i: nat, j: nat, id: nat, tenant: Id, stream: StreamId)
    requires |ss| == |acts| + 1 && i < j <= |acts| && OnlyWriter(acts, ss, i, j, id, tenant, stream)
    ensures OnlyWriter(acts, ss, i, j - 1, id, tenant, stream)
    ensures !(acts[j - 1].Advance? && acts[j - 1].id == id) ==>
              Stream(ss[j].repo.events, tenant, stream) == Stream(ss[j - 1].repo.events, tenant, stream)
  {
    hide Stream;
  }

  lemma {:induction false} StaysOnTip(
    acts: seq<Act>, ss: seq<Sys>, i: nat, j: nat, id: nat, tenant: Id, stream: StreamId)
    requires History(acts, ss) && i <= j <= |acts| && OnlyWriter(acts, ss, i, j, id, tenant, stream)
    requires id in ss[i].calls && OnTip(ss[i].repo, ss[i].calls[id], tenant, stream)
    ensures id in ss[j].calls && OnTip(ss[j].repo, ss[j].calls[id], tenant, stream)
    decreases j
  {
    hide OnTip, RepoInv, StepPc, CallInv, Stream;
    if i < j {
      WriterBefore(acts, ss, i, j, id, tenant, stream);
      hide OnlyWriter;
      StaysOnTip(acts, ss, i, j - 1, id, tenant, stream);
      RunKeeps(acts, ss, j - 1);
      var s, act := ss[j - 1], acts[j - 1];
      assert ss[j] == Apply(s, act);
      if act.Advance? && act.id == id {
        OwnKeepsTip(s.repo, s.calls[id], act.now, tenant, stream);
      } else {
        OtherKeepsTip(s, act, s.calls[id], tenant, stream);
      }
    }
  }

  /**
   An execution that nobody disturbs on its own stream never ends in a conflict: the stored request is its answer,
   COMPLETED or BLOCKED_BY_HOLD, with the event that says so at the tip. Other streams and holds may change freely.
   */
  lemma ExecutionSettles(acts: seq<Act>, ss: seq<Sys>, i: nat, j: nat, id: nat, call: Call)
    requires History(acts, ss) && i < j <= |acts| && OpenedAt(acts, ss, i, id, call) && call.ExecuteDeletion?
    requires OnlyWriter(acts, ss, i + 1, j, id, call.tenant, call.requestId)
    ensures id in ss[j].calls
    ensures ss[j].calls[id].Returned? ==> Settled(ss[j].repo, call.tenant, call.requestId, ss[j].calls[id].answer)
  {
    assert ss[i + 1] == Apply(ss[i], acts[i]);
    StaysOnTip(acts, ss, i + 1, j, id, call.tenant, call.requestId);
  }

  // ---------------------------------------------------------------- an execution overtaken by a hold

  /** The call is about to write a completion that only the hold on its case refuses. */
  predicate MeetsHold(repo: Repo, pc: Pc, tenant: Id, stream: StreamId) {
    && pc.Write? && pc.goal.Finish? && pc.event.tenant == tenant && pc.event.payload.requestId == stream
    && StatusIs(repo, tenant, stream, Executing)
    && var known := repo.requests[(tenant, stream)];
       && pc.event.payload.previous == known.eventHash
       && known.decision.Some? && (tenant, known.decision.value) in repo.holds
  }

  /** On the way to BLOCKED_BY_HOLD, or there. */
  predicate Yields(pc: Pc) {
    match pc
    case ReadTip(goal, header) => goal.Move? && goal.request.status == BlockedByHold && header.kind == DeletionBlocked
    case StampEvent(goal, header, _) =>
      goal.Move? && goal.request.status == BlockedByHold && header.kind == DeletionBlocked
    case Write(goal, event) =>
      goal.Move? && goal.request.status == BlockedByHold && event.payload.kind == DeletionBlocked
    case Returned(answer) => answer.Stored? && answer.request.status == BlockedByHold
    case _ => false
  }

  lemma HoldTurnsBack(repo: Repo, pc: Pc, now: int, tenant: Id, stream: StreamId)
    requires RepoInv(repo) && CallInv(repo, pc) && MeetsHold(repo, pc, tenant, stream)
    ensures var (repo', pc') := StepPc(repo, pc, now);
      repo' == repo && Yields(pc') && OnTip(repo', pc', tenant, stream)
  {
    hide RepoInv, Stream;
  }

  lemma YieldsOn(repo: Repo, pc: Pc, now: int, tenant: Id, stream: StreamId)
    requires RepoInv(repo) && CallInv(repo, pc) && OnTip(repo, pc, tenant, stream) && Yields(pc)
    ensures Yields(StepPc(repo, pc, now).1)
  {
    assert RequestInv(repo, tenant, stream);
    hide RepoInv, Stream;
  }

  lemma {:induction false} StaysYielding(
    acts: seq<Act>, ss: seq<Sys>, i: nat, j: nat, id: nat, tenant: Id, stream: StreamId)
    requires History(acts, ss) && i <= j <= |acts| && OnlyWriter(acts, ss, i, j, id, tenant, stream)
    requires id in ss[i].calls && OnTip(ss[i].repo, ss[i].calls[id], tenant, stream) && Yields(ss[i].calls[id])
    ensures id in ss[j].calls && Yields(ss[j].calls[id])
    decreases j
  {
    hide OnTip, RepoInv, StepPc, CallInv, Yields, Stream;
    if i < j {
      WriterBefore(acts, ss, i, j, id, tenant, stream);
      hide OnlyWriter;
      StaysYielding(acts, ss, i, j - 1, id, tenant, stream);
      StaysOnTip(acts, ss, i, j - 1, id, tenant, stream);
      RunKeeps(acts, ss, j - 1);
      var s, act := ss[j - 1], acts[j - 1];
      assert ss[j] == Apply(s, act);
      if act.Advance? && act.id == id {
        YieldsOn(s.repo, s.calls[id], act.now, tenant, stream);
      }
    }
  }

  /**
   A completion that meets an active hold gives way: if nobody else writes the stream before the call ends, the stored
   request is BLOCKED_BY_HOLD, the call answers with it, and its last event is the blocking, hold released or not.
   */
  lemma OvertakenIsBlocked(acts: seq<Act>, ss: seq<Sys>, i: nat, j: nat, id: nat, tenant: Id, stream: StreamId)
    requires History(acts, ss) && i < j <= |acts| && id in ss[i].calls && acts[i].Advance? && acts[i].id == id
    requires MeetsHold(ss[i].repo, ss[i].calls[id], tenant, stream)
    requires OnlyWriter(acts, ss, i, j, id, tenant, stream) && id in ss[j].calls && ss[j].calls[id].Returned?
    ensures var st := Stream(ss[j].repo.events, tenant, stream);
      && (tenant, stream) in ss[j].repo.requests
      && ss[j].repo.requests[(tenant, stream)].status == BlockedByHold
      && ss[j].calls[id].answer == Stored(ss[j].repo.requests[(tenant, stream)])
      && st != [] && st[|st| - 1].payload.kind == DeletionBlocked
  {
    RunKeeps(acts, ss, i);
    assert ss[i + 1] == Apply(ss[i], acts[i]);
    HoldTurnsBack(ss[i].repo, ss[i].calls[id], acts[i].now, tenant, stream);
    hide RepoInv, MeetsHold, CallInv, StepPc;
    assert OnlyWriter(acts, ss, i + 1, j, id, tenant, stream);
    StaysYielding(acts, ss, i + 1, j, id, tenant, stream);
    StaysOnTip(acts, ss, i + 1, j, id, tenant, stream);
  }
}
