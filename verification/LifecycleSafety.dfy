/**
 What every interleaving of deletion and hold calls keeps: every stream is a hash chain, each stored request
 sits at its stream's tip, holds alternate, completion is final, and a case only goes while no hold is active.
 */
module LifecycleSafety {
  import opened Wrappers
  import opened LifecycleContracts
  import opened LifecycleRepository
  import opened LifecycleService

  // ---------------------------------------------------------------- the invariant of the store

  predicate WellHashed(e: LifecycleEvent) { e.eventHash == HashOf(e.payload) }

  /** Each event carries its own hash and the hash of the one before it, the first one none. */
  predicate Chain(st: seq<LifecycleEvent>) {
    forall i :: 0 <= i < |st| ==> Linked(st, i)
  }

  predicate Linked(st: seq<LifecycleEvent>, i: nat)
    requires i < |st|
  {
    && WellHashed(st[i])
    && st[i].payload.previous == if i == 0 then None else Some(st[i - 1].eventHash)
  }

  /** What kind of event leaves a request in this status. */
  predicate Explains(kind: EventType, status: DeletionStatus) {
    match kind
    case DeletionRequested => status.Requested? || status.BlockedByHold?
    case DeletionBlocked => status.BlockedByHold?
    case DeletionExecuting => status.Executing?
    case DeletionCompleted => status.Completed?
    case _ => false
  }

  predicate IdentityOk(r: DeletionRequest) {
    && r.requestId == DeleteStream(r.tenant, r.actor, r.key)
    && !r.status.Failed?
    && (r.status.Completed? <==> r.decision.None?)
    && (r.decision.Some? ==> r.caseRef == CaseRef(r.tenant, r.decision.value))
  }

  /** The request is as the last event left it; the stream opens once and completes at most once, last. */
  predicate AtTip(st: seq<LifecycleEvent>, r: DeletionRequest) {
    && st != [] && r.eventHash == Some(st[|st| - 1].eventHash)
    && Explains(st[|st| - 1].payload.kind, r.status)
    && (forall i :: 0 <= i < |st| ==> (st[i].payload.kind.DeletionRequested? <==> i == 0))
    && (forall i :: 0 <= i < |st| ==>
          (st[i].payload.kind.DeletionCompleted? <==> r.status.Completed? && i == |st| - 1))
  }

  /** A stored request is at the tip of its stream, which is a chain. */
  predicate RequestInv(repo: Repo, tenant: Id, id: StreamId) {
    var st := Stream(repo.events, tenant, id);
    && Chain(st)
    && ((tenant, id) in repo.requests ==>
          var r := repo.requests[(tenant, id)];
          r.tenant == tenant && r.requestId == id && IdentityOk(r) && AtTip(st, r))
    && ((tenant, id) !in repo.requests && id.DeleteStream? ==> st == [])
  }

  /** Placed and released alternate, and the hold is active exactly after "placed". */
  predicate HoldInv(repo: Repo, tenant: Id, decision: Id) {
    var st := Stream(repo.events, tenant, HoldStream(tenant, decision));
    && (forall i :: 0 <= i < |st| ==> st[i].payload.kind == if i % 2 == 0 then HoldPlaced else HoldReleased)
    && ((tenant, decision) in repo.holds <==> |st| % 2 == 1)
  }

  /** An idempotency key leads to the one request it names, and every request has its key. */
  predicate KeyInv(repo: Repo, tenant: Id, actor: Id, key: Id) {
    var id := DeleteStream(tenant, actor, key);
    && ((tenant, actor, key) in repo.idempotency ==> repo.idempotency[(tenant, actor, key)] == id)
    && ((tenant, actor, key) in repo.idempotency <==> (tenant, id) in repo.requests)
  }

  ghost predicate RepoInv(repo: Repo) {
    && (forall tenant, id :: RequestInv(repo, tenant, id))
    && (forall tenant, decision :: HoldInv(repo, tenant, decision))
    && (forall tenant, actor, key :: KeyInv(repo, tenant, actor, key))
  }

  // ---------------------------------------------------------------- the invariant of a call in flight

  predicate Known(repo: Repo, r: DeletionRequest) {
    && IdentityOk(r)
    && (r.tenant, r.requestId) in repo.requests
    && SameSubmission(r, repo.requests[(r.tenant, r.requestId)])
    && r.requestedAt == repo.requests[(r.tenant, r.requestId)].requestedAt
  }

  /** Whoever has seen a request completed will still find it so. */
  predicate SeenStatus(repo: Repo, r: DeletionRequest) {
    r.status.Completed? ==>
      (r.tenant, r.requestId) in repo.requests && repo.requests[(r.tenant, r.requestId)].status.Completed?
  }

  predicate GoalInv(repo: Repo, goal: Goal, tenant: Id, stream: StreamId, kind: EventType) {
    match goal
    case Create(r) =>
      && IdentityOk(r) && (r.status.Requested? || r.status.BlockedByHold?)
      && r.tenant == tenant && r.requestId == stream && kind == DeletionRequested
    case Move(r, expected) =>
      && Known(repo, r) && !expected.Completed?
      && r.tenant == tenant && r.requestId == stream
      && ((r.status.BlockedByHold? && kind == DeletionBlocked) || (r.status.Executing? && kind == DeletionExecuting))
    case Finish(completed, executing) =>
      && Known(repo, completed) && Known(repo, executing) && SeenStatus(repo, executing)
      && completed.tenant == executing.tenant == tenant && completed.requestId == executing.requestId == stream
      && completed.status.Completed? && kind == DeletionCompleted
      && (executing.status.Executing? || executing.status.Completed?)
    case Place(decision) => stream == HoldStream(tenant, decision) && kind == HoldPlaced
    case Unplace(decision) => stream == HoldStream(tenant, decision) && kind == HoldReleased
  }

  predicate CallInv(repo: Repo, pc: Pc) {
    match pc
    case CheckHold(request, _) => Known(repo, request) && !request.status.Completed?
    case StampCompletion(executing, _) =>
      Known(repo, executing) && SeenStatus(repo, executing)
        && (executing.status.Executing? || executing.status.Completed?)
    case ReadTip(goal, header) => GoalInv(repo, goal, header.tenant, header.stream, header.kind)
    case StampEvent(goal, header, _) => GoalInv(repo, goal, header.tenant, header.stream, header.kind)
    case Write(goal, event) =>
      WellHashed(event) && GoalInv(repo, goal, event.tenant, event.payload.requestId, event.payload.kind)
    case _ => true
  }

  ghost predicate Inv(s: Sys) {
    RepoInv(s.repo) && forall id :: id in s.calls ==> CallInv(s.repo, s.calls[id])
  }

  // ---------------------------------------------------------------- what one write does

  /** Stored requests keep their identity, and completed ones are never touched again. */
  predicate Kept(repo: Repo, repo': Repo, key: (Id, StreamId)) {
    key in repo.requests ==>
      && key in repo'.requests
      && SameSubmission(repo.requests[key], repo'.requests[key])
      && repo.requests[key].requestedAt == repo'.requests[key].requestedAt
      && (repo.requests[key].status.Completed? ==> repo'.requests[key] == repo.requests[key])
  }

  ghost predicate AllKept(repo: Repo, repo': Repo) {
    forall key :: Kept(repo, repo', key)
  }

  lemma ChainExtends(st: seq<LifecycleEvent>, e: LifecycleEvent)
    requires Chain(st) && WellHashed(e)
    requires e.payload.previous == if st == [] then None else Some(st[|st| - 1].eventHash)
    ensures Chain(st + [e])
  {
    forall i | 0 <= i < |st + [e]| ensures Linked(st + [e], i) {
      if i < |st| {
        assert Linked(st, i);
      }
    }
  }

  /** Appending an event leaves every other stream alone. */
  lemma OtherStreamsKept(events: seq<LifecycleEvent>, e: LifecycleEvent, tenant: Id, id: StreamId)
    requires (e.tenant, e.payload.requestId) != (tenant, id)
    ensures Stream(events + [e], tenant, id) == Stream(events, tenant, id)
  {
    StreamAppend(events, e, tenant, id);
  }

  /** The write of a request, with its event, that passed the compare-and-swap. */
  predicate RequestWrite(repo: Repo, repo': Repo, r: DeletionRequest, e: LifecycleEvent) {
    && WellHashed(e) && IdentityOk(r)
    && e.tenant == r.tenant && e.payload.requestId == r.requestId
    && Explains(e.payload.kind, r.status)
    && repo'.requests == repo.requests[(r.tenant, r.requestId) := r.WithEvent(e)]
    && repo'.idempotency == repo.idempotency[(r.tenant, r.actor, r.key) := r.requestId]
    && repo'.holds == repo.holds && repo'.events == repo.events + [e]
    && (e.payload.kind.DeletionRequested? <==> Stream(repo.events, r.tenant, r.requestId) == [])
    && e.payload.previous == PreviousFor(Stream(repo.events, r.tenant, r.requestId))
    && ((r.tenant, r.requestId) in repo.requests ==> !repo.requests[(r.tenant, r.requestId)].status.Completed?)
  }

  function PreviousFor(st: seq<LifecycleEvent>): Option<Hash> {
    if st == [] then None else Some(st[|st| - 1].eventHash)
  }

  lemma RequestWrittenStream(repo: Repo, repo': Repo, r: DeletionRequest, e: LifecycleEvent, tenant: Id, id: StreamId)
    requires RequestWrite(repo, repo', r, e) && RequestInv(repo, tenant, id)
    ensures RequestInv(repo', tenant, id)
  {
    if (tenant, id) == (r.tenant, r.requestId) {
      OwnStreamWritten(repo, repo', r, e);
    } else {
      OtherStreamsKept(repo.events, e, tenant, id);
    }
    hide Stream, Chain, Explains;
  }

  lemma OwnStreamWritten(repo: Repo, repo': Repo, r: DeletionRequest, e: LifecycleEvent)
    requires RequestWrite(repo, repo', r, e) && RequestInv(repo, r.tenant, r.requestId)
    ensures RequestInv(repo', r.tenant, r.requestId)
  {
    hide Stream, Chain, Explains, AtTip, WellHashed;
    var st, k := Stream(repo.events, r.tenant, r.requestId), (r.tenant, r.requestId);
    StreamAppend(repo.events, e, r.tenant, r.requestId);
    ChainExtends(st, e);
    TipExtends(st, if k in repo.requests then repo.requests[k] else r, e, r.WithEvent(e));
  }

  lemma TipExtends(st: seq<LifecycleEvent>, before: DeletionRequest, e: LifecycleEvent, r: DeletionRequest)
    requires st == [] || (AtTip(st, before) && !before.status.Completed?)
    requires r.eventHash == Some(e.eventHash) && Explains(e.payload.kind, r.status)
    requires e.payload.kind.DeletionRequested? <==> st == []
    ensures AtTip(st + [e], r)
  {
  }

  lemma RequestWrittenHold(repo: Repo, repo': Repo, r: DeletionRequest, e: LifecycleEvent, tenant: Id, decision: Id)
    requires RequestWrite(repo, repo', r, e) && HoldInv(repo, tenant, decision)
    ensures HoldInv(repo', tenant, decision)
  {
    OtherStreamsKept(repo.events, e, tenant, HoldStream(tenant, decision));
  }

  /** A request write that passed the compare-and-swap keeps the store's invariant. */
  lemma RequestWritten(repo: Repo, repo': Repo, r: DeletionRequest, e: LifecycleEvent)
    requires RepoInv(repo) && RequestWrite(repo, repo', r, e)
    ensures RepoInv(repo')
  {
    forall tenant, id ensures RequestInv(repo', tenant, id) {
      assert RequestInv(repo, tenant, id);
      RequestWrittenStream(repo, repo', r, e, tenant, id);
    }
    forall tenant, decision ensures HoldInv(repo', tenant, decision) {
      assert HoldInv(repo, tenant, decision);
      RequestWrittenHold(repo, repo', r, e, tenant, decision);
    }
    forall tenant, actor, key ensures KeyInv(repo', tenant, actor, key) {
      assert KeyInv(repo, tenant, actor, key);
    }
    hide RequestInv, HoldInv, KeyInv, Stream;
  }

  /** A hold placed or released on its stream's tip. */
  predicate HoldWrite(repo: Repo, repo': Repo, decision: Id, e: LifecycleEvent) {
    && WellHashed(e) && e.payload.requestId == HoldStream(e.tenant, decision)
    && repo'.requests == repo.requests && repo'.idempotency == repo.idempotency && repo'.events == repo.events + [e]
    && e.payload.previous == TipHash(repo.events, e.tenant, e.payload.requestId)
    && var here := (e.tenant, decision);
      || (here !in repo.holds && repo'.holds == repo.holds + {here} && e.payload.kind == HoldPlaced)
      || (here in repo.holds && repo'.holds == repo.holds - {here} && e.payload.kind == HoldReleased)
  }

  lemma HoldWrittenStream(repo: Repo, repo': Repo, decision: Id, e: LifecycleEvent, tenant: Id, id: StreamId)
    requires HoldWrite(repo, repo', decision, e) && RequestInv(repo, tenant, id)
    ensures RequestInv(repo', tenant, id)
  {
    if (tenant, id) == (e.tenant, e.payload.requestId) {
      StreamAppend(repo.events, e, tenant, id);
      ChainExtends(Stream(repo.events, tenant, id), e);
    } else {
      OtherStreamsKept(repo.events, e, tenant, id);
    }
    hide Stream, Chain, Explains;
  }

  lemma HoldWrittenHold(repo: Repo, repo': Repo, decision: Id, e: LifecycleEvent, tenant: Id, other: Id)
    requires HoldWrite(repo, repo', decision, e) && HoldInv(repo, tenant, other)
    ensures HoldInv(repo', tenant, other)
  {
    StreamAppend(repo.events, e, tenant, HoldStream(tenant, other));
    hide Stream, TipHash;
  }

  /** Placing or releasing a hold keeps the store's invariant. */
  lemma HoldWritten(repo: Repo, repo': Repo, decision: Id, e: LifecycleEvent)
    requires RepoInv(repo) && HoldWrite(repo, repo', decision, e)
    ensures RepoInv(repo')
  {
    forall tenant, id ensures RequestInv(repo', tenant, id) {
      assert RequestInv(repo, tenant, id);
      HoldWrittenStream(repo, repo', decision, e, tenant, id);
    }
    forall tenant, other ensures HoldInv(repo', tenant, other) {
      assert HoldInv(repo, tenant, other);
      HoldWrittenHold(repo, repo', decision, e, tenant, other);
    }
    forall tenant, actor, key ensures KeyInv(repo', tenant, actor, key) {
      assert KeyInv(repo, tenant, actor, key);
    }
    hide RequestInv, HoldInv, Stream;
  }

  lemma PersistKeeps(repo: Repo, r: DeletionRequest, e: LifecycleEvent, expected: Option<DeletionStatus>)
    requires RepoInv(repo) && WellHashed(e) && IdentityOk(r) && !r.status.Completed?
    requires e.tenant == r.tenant && e.payload.requestId == r.requestId
    requires Explains(e.payload.kind, r.status)
    requires e.payload.kind.DeletionRequested? <==> expected.None?
    requires expected.Some? ==> !expected.value.Completed? && Known(repo, r)
    ensures RepoInv(PersistOn(repo, r.WithEvent(e), e, expected).0)
    ensures AllKept(repo, PersistOn(repo, r.WithEvent(e), e, expected).0)
  {
    var (repo', result) := PersistOn(repo, r.WithEvent(e), e, expected);
    assert RequestInv(repo, r.tenant, r.requestId);
    if repo' != repo {
      RequestWritten(repo, repo', r, e);
    }
  }

  lemma CompleteKeeps(repo: Repo, r: DeletionRequest, e: LifecycleEvent)
    requires RepoInv(repo) && WellHashed(e) && Known(repo, r) && r.status.Completed?
    requires e.tenant == r.tenant && e.payload.requestId == r.requestId && e.payload.kind == DeletionCompleted
    ensures RepoInv(CompleteOn(repo, r.WithEvent(e), e).0)
    ensures AllKept(repo, CompleteOn(repo, r.WithEvent(e), e).0)
  {
    var (repo', result) := CompleteOn(repo, r.WithEvent(e), e);
    assert RequestInv(repo, r.tenant, r.requestId);
    assert KeyInv(repo, r.tenant, r.actor, r.key);
    if repo' != repo {
      assert repo.idempotency == repo.idempotency[(r.tenant, r.actor, r.key) := r.requestId];
      RequestWritten(repo, repo', r, e);
    }
  }

  predicate Written(repo: Repo, goal: Goal, e: LifecycleEvent) {
    CallInv(StepWrite(repo, goal, e).0, StepWrite(repo, goal, e).1)
  }

  lemma CreateKeeps(repo: Repo, goal: Goal, e: LifecycleEvent)
    requires RepoInv(repo) && CallInv(repo, Write(goal, e)) && goal.Create?
    ensures RepoInv(StepWrite(repo, goal, e).0) && AllKept(repo, StepWrite(repo, goal, e).0) && Written(repo, goal, e)
  {
    PersistKeeps(repo, goal.request, e, None);
    hide RepoInv, AllKept;
  }

  lemma MoveKeeps(repo: Repo, goal: Goal, e: LifecycleEvent)
    requires RepoInv(repo) && CallInv(repo, Write(goal, e)) && goal.Move?
    ensures RepoInv(StepWrite(repo, goal, e).0) && AllKept(repo, StepWrite(repo, goal, e).0) && Written(repo, goal, e)
  {
    var r := goal.request;
    PersistKeeps(repo, r, e, Some(goal.expected));
    assert RequestInv(repo, r.tenant, r.requestId) && RequestInv(StepWrite(repo, goal, e).0, r.tenant, r.requestId);
    hide RepoInv, AllKept, Stream;
  }

  lemma FinishKeeps(repo: Repo, goal: Goal, e: LifecycleEvent)
    requires RepoInv(repo) && CallInv(repo, Write(goal, e)) && goal.Finish?
    ensures RepoInv(StepWrite(repo, goal, e).0) && AllKept(repo, StepWrite(repo, goal, e).0) && Written(repo, goal, e)
  {
    assert RequestInv(repo, goal.completed.tenant, goal.completed.requestId);
    CompleteKeeps(repo, goal.completed, e);
    hide RepoInv, AllKept, Stream;
  }

  lemma HoldKeeps(repo: Repo, goal: Goal, e: LifecycleEvent)
    requires RepoInv(repo) && CallInv(repo, Write(goal, e)) && (goal.Place? || goal.Unplace?)
    ensures RepoInv(StepWrite(repo, goal, e).0) && AllKept(repo, StepWrite(repo, goal, e).0) && Written(repo, goal, e)
  {
    var repo' := StepWrite(repo, goal, e).0;
    if repo' != repo {
      HoldWritten(repo, repo', goal.decision, e);
    }
    hide RepoInv, Stream;
  }

  /** The values a call returns or carries on with after its write. */
  lemma WriteKeeps(repo: Repo, goal: Goal, e: LifecycleEvent)
    requires RepoInv(repo) && CallInv(repo, Write(goal, e))
    ensures RepoInv(StepWrite(repo, goal, e).0)
    ensures AllKept(repo, StepWrite(repo, goal, e).0)
    ensures CallInv(StepWrite(repo, goal, e).0, StepWrite(repo, goal, e).1)
  {
    hide RepoInv, AllKept, CallInv, StepWrite;
    match goal
    case Create(_) => CreateKeeps(repo, goal, e);
    case Move(_, _) => MoveKeeps(repo, goal, e);
    case Finish(_, _) => FinishKeeps(repo, goal, e);
    case Place(_) => HoldKeeps(repo, goal, e);
    case Unplace(_) => HoldKeeps(repo, goal, e);
  }

  lemma KnownStable(repo: Repo, repo': Repo, r: DeletionRequest)
    requires AllKept(repo, repo') && Known(repo, r)
    ensures Known(repo', r) && (SeenStatus(repo, r) ==> SeenStatus(repo', r))
  {
    assert Kept(repo, repo', (r.tenant, r.requestId));
  }

  lemma GoalInvStable(repo: Repo, repo': Repo, goal: Goal, tenant: Id, stream: StreamId, kind: EventType)
    requires AllKept(repo, repo') && GoalInv(repo, goal, tenant, stream, kind)
    ensures GoalInv(repo', goal, tenant, stream, kind)
  {
    match goal
    case Move(r, _) => KnownStable(repo, repo', r);
    case Finish(completed, executing) =>
      KnownStable(repo, repo', completed);
      KnownStable(repo, repo', executing);
    case _ =>
  }

  /** A call's own knowledge survives any other call's write. */
  lemma CallInvStable(repo: Repo, repo': Repo, pc: Pc)
    requires AllKept(repo, repo') && CallInv(repo, pc)
    ensures CallInv(repo', pc)
  {
    match pc
    case CheckHold(request, _) => KnownStable(repo, repo', request);
    case StampCompletion(executing, _) => KnownStable(repo, repo', executing);
    case ReadTip(goal, header) => GoalInvStable(repo, repo', goal, header.tenant, header.stream, header.kind);
    case StampEvent(goal, header, _) => GoalInvStable(repo, repo', goal, header.tenant, header.stream, header.kind);
    case Write(goal, event) => GoalInvStable(repo, repo', goal, event.tenant, event.payload.requestId,
      event.payload.kind);
    case _ =>
  }

  lemma StepPcKeeps(repo: Repo, pc: Pc, now: int)
    requires RepoInv(repo) && CallInv(repo, pc)
    ensures RepoInv(StepPc(repo, pc, now).0)
    ensures AllKept(repo, StepPc(repo, pc, now).0)
    ensures CallInv(StepPc(repo, pc, now).0, StepPc(repo, pc, now).1)
  {
    match pc
    case Write(goal, event) =>
      WriteKeeps(repo, goal, event);
      hide RepoInv, CallInv, StepWrite, AllKept;
    case Start(call) => StartKeeps(repo, call);
    case _ =>
  }

  lemma StartKeeps(repo: Repo, call: Call)
    requires RepoInv(repo)
    ensures CallInv(repo, StepStart(repo, call))
  {
    if call.ExecuteDeletion? {
      assert RequestInv(repo, call.tenant, call.requestId);
    }
  }

  lemma ApplyKeeps(s: Sys, act: Act)
    requires Inv(s)
    ensures Inv(Apply(s, act)) && AllKept(s.repo, Apply(s, act).repo)
  {
    var s' := Apply(s, act);
    match act
    case Open(id, call) =>
    case AddCase(tenant, decision) =>
      CasesDoNotMatter(s.repo, s'.repo);
      forall id | id in s'.calls ensures CallInv(s'.repo, s'.calls[id]) {
        CallInvStable(s.repo, s'.repo, s.calls[id]);
      }
    case Advance(id, now) =>
      if id in s.calls {
        StepPcKeeps(s.repo, s.calls[id], now);
        forall other | other in s'.calls ensures CallInv(s'.repo, s'.calls[other]) {
          if other != id {
            CallInvStable(s.repo, s'.repo, s.calls[other]);
          }
        }
      }
  }

  lemma CasesDoNotMatter(repo: Repo, repo': Repo)
    requires RepoInv(repo) && repo' == repo.(cases := repo'.cases)
    ensures RepoInv(repo') && AllKept(repo, repo')
  {
    forall tenant, id ensures RequestInv(repo', tenant, id) { assert RequestInv(repo, tenant, id); }
    forall tenant, decision ensures HoldInv(repo', tenant, decision) { assert HoldInv(repo, tenant, decision); }
    forall tenant, actor, key ensures KeyInv(repo', tenant, actor, key) { assert KeyInv(repo, tenant, actor, key); }
  }

  // ---------------------------------------------------------------- whole runs

  lemma {:induction false} RunKeeps(acts: seq<Act>, ss: seq<Sys>, i: nat)
    requires History(acts, ss) && i <= |acts|
    ensures Inv(ss[i])
  {
    if i == 0 {
      var repo := ss[0].repo;
      forall tenant, id ensures RequestInv(repo, tenant, id) {}
      forall tenant, decision ensures HoldInv(repo, tenant, decision) {}
      forall tenant, actor, key ensures KeyInv(repo, tenant, actor, key) {}
    } else {
      RunKeeps(acts, ss, i - 1);
      ApplyKeeps(ss[i - 1], acts[i - 1]);
      assert ss[i] == Apply(ss[i - 1], acts[i - 1]);
    }
  }

  /** Every stream in every reachable state is a hash chain, with each stored request at its stream's tip. */
  lemma StreamsAreChains(acts: seq<Act>, ss: seq<Sys>, i: nat, tenant: Id, id: StreamId)
    requires History(acts, ss) && i <= |acts|
    ensures Chain(Stream(ss[i].repo.events, tenant, id))
    ensures (tenant, id) in ss[i].repo.requests ==>
      ss[i].repo.requests[(tenant, id)].eventHash == TipHash(ss[i].repo.events, tenant, id)
  {
    RunKeeps(acts, ss, i);
    assert RequestInv(ss[i].repo, tenant, id);
  }

  /** Completed events of a stream. */
  function Completions(st: seq<LifecycleEvent>): nat {
    if st == [] then 0
    else Completions(st[..|st| - 1]) + if st[|st| - 1].payload.kind.DeletionCompleted? then 1 else 0
  }

  lemma {:induction false} NoCompletions(st: seq<LifecycleEvent>)
    requires forall i :: 0 <= i < |st| ==> !st[i].payload.kind.DeletionCompleted?
    ensures Completions(st) == 0
  {
    if st != [] {
      NoCompletions(st[..|st| - 1]);
    }
  }

  /** A request has one completed event once COMPLETED and none before; COMPLETED is having forgotten the decision. */
  lemma CompletedOnce(acts: seq<Act>, ss: seq<Sys>, i: nat, tenant: Id, id: StreamId)
    requires History(acts, ss) && i <= |acts| && (tenant, id) in ss[i].repo.requests
    ensures var r := ss[i].repo.requests[(tenant, id)];
      && Completions(Stream(ss[i].repo.events, tenant, id)) == (if r.status.Completed? then 1 else 0)
      && (r.status.Completed? <==> r.decision.None?)
  {
    RunKeeps(acts, ss, i);
    var st := Stream(ss[i].repo.events, tenant, id);
    assert RequestInv(ss[i].repo, tenant, id);
    NoCompletions(st[..|st| - 1]);
  }

  /** A completed request is never written again, by whatever calls are still in flight or yet to come. */
  lemma {:induction false} CompletedIsFinal(acts: seq<Act>, ss: seq<Sys>, i: nat, j: nat, tenant: Id, id: StreamId)
    requires History(acts, ss) && i <= j <= |acts|
    requires (tenant, id) in ss[i].repo.requests && ss[i].repo.requests[(tenant, id)].status.Completed?
    ensures (tenant, id) in ss[j].repo.requests
         && ss[j].repo.requests[(tenant, id)] == ss[i].repo.requests[(tenant, id)]
  {
    if i < j {
      CompletedIsFinal(acts, ss, i, j - 1, tenant, id);
      RunKeeps(acts, ss, j - 1);
      ApplyKeeps(ss[j - 1], acts[j - 1]);
      assert ss[j] == Apply(ss[j - 1], acts[j - 1]);
      assert Kept(ss[j - 1].repo, ss[j].repo, (tenant, id));
    }
  }

  /** The request whose completion step `act` is. */
  predicate Completes(s: Sys, s': Sys, tenant: Id, id: StreamId, decision: Id) {
    && (tenant, id) in s.repo.requests && (tenant, id) in s'.repo.requests
    && s.repo.requests[(tenant, id)].status.Executing? && s'.repo.requests[(tenant, id)].status.Completed?
    && s.repo.requests[(tenant, id)].caseRef == CaseRef(tenant, decision)
  }

  /** A case disappears only in the step that completes a request for it, and only with no hold on it. */
  lemma CasesGoOnlyUnheld(acts: seq<Act>, ss: seq<Sys>, i: nat, tenant: Id, decision: Id)
    requires History(acts, ss) && i < |acts|
    requires (tenant, decision) in ss[i].repo.cases && (tenant, decision) !in ss[i + 1].repo.cases
    ensures (tenant, decision) !in ss[i].repo.holds
    ensures var s, s' := ss[i], ss[i + 1]; exists id :: Completes(s, s', tenant, id, decision)
  {
    RunKeeps(acts, ss, i);
    var s, s', act := ss[i], ss[i + 1], acts[i];
    assert s' == Apply(s, act);
    assert act.Advance? && act.id in s.calls;
    var pc := s.calls[act.id];
    assert pc.Write? && pc.goal.Finish?;
    var r := pc.goal.completed;
    assert RequestInv(s.repo, r.tenant, r.requestId);
    assert Completes(s, s', tenant, r.requestId, decision);
  }

  /** Hold streams alternate, and the hold is active exactly while the last event is "placed". */
  lemma HoldsAlternate(acts: seq<Act>, ss: seq<Sys>, i: nat, tenant: Id, decision: Id)
    requires History(acts, ss) && i <= |acts|
    ensures var st := Stream(ss[i].repo.events, tenant, HoldStream(tenant, decision));
      && (st != [] ==> st[0].payload.kind == HoldPlaced)
      && (forall n :: 0 <= n < |st| - 1 ==> st[n].payload.kind != st[n + 1].payload.kind)
      && (forall n :: 0 <= n < |st| ==> st[n].payload.kind in {HoldPlaced, HoldReleased})
      && ((tenant, decision) in ss[i].repo.holds <==> st != [] && st[|st| - 1].payload.kind == HoldPlaced)
  {
    RunKeeps(acts, ss, i);
    assert HoldInv(ss[i].repo, tenant, decision);
  }

  /** All calls under one idempotency key converge on one request, which keeps what it was submitted with. */
  lemma {:induction false} SubmissionKept(acts: seq<Act>, ss: seq<Sys>, i: nat, j: nat, tenant: Id, actor: Id, key: Id)
    requires History(acts, ss) && i <= j <= |acts| && (tenant, actor, key) in ss[i].repo.idempotency
    ensures var id := DeleteStream(tenant, actor, key);
      && (tenant, actor, key) in ss[j].repo.idempotency && ss[j].repo.idempotency[(tenant, actor, key)] == id
      && (tenant, id) in ss[i].repo.requests && (tenant, id) in ss[j].repo.requests
      && SameSubmission(ss[i].repo.requests[(tenant, id)], ss[j].repo.requests[(tenant, id)])
  {
    hide Apply;
    RunKeeps(acts, ss, j);
    assert KeyInv(ss[j].repo, tenant, actor, key);
    hide RequestInv, HoldInv;
    if i < j {
      SubmissionKept(acts, ss, i, j - 1, tenant, actor, key);
      RunKeeps(acts, ss, j - 1);
      ApplyKeeps(ss[j - 1], acts[j - 1]);
      assert ss[j] == Apply(ss[j - 1], acts[j - 1]);
      assert Kept(ss[j - 1].repo, ss[j].repo, (tenant, DeleteStream(tenant, actor, key)));
    }
  }

  // ---------------------------------------------------------------- time along a stream

  /** The clock never runs backwards over the whole run. */
  predicate ClockMonotone(acts: seq<Act>, ss: seq<Sys>)
    requires |ss| == |acts| + 1
  {
    forall i :: 0 <= i < |acts| && acts[i].Advance? ==> ss[i].clock <= acts[i].now
  }

  predicate Ordered(st: seq<LifecycleEvent>) {
    forall i, j :: 0 <= i < j < |st| ==> st[i].payload.occurredAt <= st[j].payload.occurredAt
  }

  predicate NotAfter(h: Option<Hash>, time: int) {
    h.Some? && h.value.HashOf? ==> h.value.payload.occurredAt <= time
  }

  /** A tip read earlier is no later than the stamp taken after it. */
  predicate CallTimes(pc: Pc, clock: int) {
    match pc
    case StampEvent(_, _, previous) => NotAfter(previous, clock)
    case Write(_, event) =>
      NotAfter(event.payload.previous, event.payload.occurredAt) && event.payload.occurredAt <= clock
    case _ => true
  }

  ghost predicate Timed(s: Sys) {
    && (forall e :: e in s.repo.events ==> e.payload.occurredAt <= s.clock)
    && (forall tenant, id :: Ordered(Stream(s.repo.events, tenant, id)))
    && (forall id :: id in s.calls ==> CallTimes(s.calls[id], s.clock))
  }

  lemma {:induction false} StreamWithin(events: seq<LifecycleEvent>, tenant: Id, id: StreamId)
    ensures forall e :: e in Stream(events, tenant, id) ==> e in events
  {
    if events != [] {
      StreamWithin(events[..|events| - 1], tenant, id);
    }
  }

  /** What passed the compare-and-swap is stamped no earlier than the tip it extends. */
  lemma WriteIsLater(repo: Repo, pc: Pc)
    requires RepoInv(repo) && CallInv(repo, pc) && pc.Write?
    requires NotAfter(pc.event.payload.previous, pc.event.payload.occurredAt)
    ensures var repo' := StepWrite(repo, pc.goal, pc.event).0;
      && (repo'.events == repo.events || repo'.events == repo.events + [pc.event])
      && (repo'.events != repo.events ==>
            NotAfter(TipHash(repo.events, pc.event.tenant, pc.event.payload.requestId), pc.event.payload.occurredAt))
  {
    var e := pc.event;
    assert RequestInv(repo, e.tenant, e.payload.requestId);
  }

  /** In a chained stream the tip's hash is the hash of the tip. */
  lemma TipIsHashed(repo: Repo, tenant: Id, id: StreamId)
    requires RequestInv(repo, tenant, id) && Stream(repo.events, tenant, id) != []
    ensures var st := Stream(repo.events, tenant, id);
      TipHash(repo.events, tenant, id) == Some(HashOf(st[|st| - 1].payload))
  {
    var st := Stream(repo.events, tenant, id);
    assert Linked(st, |st| - 1);
  }

  lemma StepKeepsTimes(repo: Repo, pc: Pc, clock: int, now: int)
    requires RepoInv(repo) && CallInv(repo, pc) && CallTimes(pc, clock) && clock <= now
    requires forall e :: e in repo.events ==> e.payload.occurredAt <= clock
    ensures CallTimes(StepPc(repo, pc, now).1, now)
  {
    if pc.ReadTip? {
      var tenant, id := pc.header.tenant, pc.header.stream;
      StreamWithin(repo.events, tenant, id);
      assert RequestInv(repo, tenant, id);
      if Stream(repo.events, tenant, id) != [] {
        TipIsHashed(repo, tenant, id);
      }
    }
  }

  lemma ApplyKeepsTime(s: Sys, act: Act)
    requires Inv(s) && Timed(s) && (act.Advance? ==> s.clock <= act.now)
    ensures Timed(Apply(s, act))
  {
    var s' := Apply(s, act);
    if act.Advance? && act.id in s.calls {
      var pc := s.calls[act.id];
      forall id | id in s'.calls ensures CallTimes(s'.calls[id], s'.clock) {
        if id == act.id {
          StepKeepsTimes(s.repo, pc, s.clock, act.now);
        } else {
          assert CallTimes(s.calls[id], s.clock);
        }
      }
      if pc.Write? {
        WriteIsLater(s.repo, pc);
        if s'.repo.events != s.repo.events {
          AppendKeepsOrder(s.repo, pc.event);
        }
      }
    }
  }

  lemma AppendKeepsOrder(repo: Repo, e: LifecycleEvent)
    requires RepoInv(repo) && forall tenant, id :: Ordered(Stream(repo.events, tenant, id))
    requires NotAfter(TipHash(repo.events, e.tenant, e.payload.requestId), e.payload.occurredAt)
    ensures forall tenant, id :: Ordered(Stream(repo.events + [e], tenant, id))
  {
    forall tenant, id ensures Ordered(Stream(repo.events + [e], tenant, id)) {
      assert Ordered(Stream(repo.events, tenant, id)) && RequestInv(repo, tenant, id);
      StreamAppend(repo.events, e, tenant, id);
      if (tenant, id) == (e.tenant, e.payload.requestId) && Stream(repo.events, tenant, id) != [] {
        TipIsHashed(repo, tenant, id);
      }
    }
  }

  /** With a clock that never runs backwards, stamps never decrease along a stream, although no lock covers them. */
  lemma {:induction false} StampsNeverDecrease(acts: seq<Act>, ss: seq<Sys>, i: nat)
    requires History(acts, ss) && ClockMonotone(acts, ss) && i <= |acts|
    ensures Timed(ss[i])
  {
    hide Apply;
    hide Inv;
    if i == 0 {
      var events := ss[0].repo.events;
      assert events == [];
      forall tenant, id ensures Ordered(Stream(events, tenant, id)) {}
    } else {
      StampsNeverDecrease(acts, ss, i - 1);
      RunKeeps(acts, ss, i - 1);
      ApplyKeepsTime(ss[i - 1], acts[i - 1]);
      assert ss[i] == Apply(ss[i - 1], acts[i - 1]);
    }
  }
}
