/** The run object and its chained log: every status change and every egress decision appends one linked event. */
module ResearchAudit {
  import opened Wrappers
  import opened DecisionContracts
  import opened ResearchContracts

  // ---------------------------------------------------------------- appending, on a run value

  function TipHash(audit: seq<AuditEvent>): Option<AuditHash> {
    if audit == [] then None else Some(AuditHash.HashOf(audit[|audit| - 1]))
  }

  function NextEvent(d: RunData, kind: AuditKind, occurredAt: int, actor: Id, target: ResearchStatus, payload: Id)
    : AuditEvent
  {
    AuditEvent(|d.audit| + 1, kind, occurredAt, actor, d.status, target, payload, TipHash(d.audit))
  }

  function TransitionOn(d: RunData, target: ResearchStatus, occurredAt: int, actor: Id, payload: Id, retry: bool)
    : (RunData, Result<AuditEvent, TransitionError>)
  {
    var moved := Transition(d.status, target, retry);
    if moved.Failure? then (d, Failure(moved.error))
    else
      var event := NextEvent(d, StatusTransitioned, occurredAt, actor, target, payload);
      (d.(status := target, updatedAt := occurredAt, audit := d.audit + [event]), Success(event))
  }

  function EgressOn(d: RunData, occurredAt: int, actor: Id, payload: Id): RunData {
    d.(audit := d.audit + [NextEvent(d, EgressDecided, occurredAt, actor, d.status, payload)])
  }

  // ---------------------------------------------------------------- the run object

  class ResearchRun {
    const runId: Id
    const tenant: Id
    const request: Request
    var expectedHash: DocHash
    var status: ResearchStatus
    var updatedAt: int
    var correlationId: Id
    var sources: seq<Source>
    var snapshots: seq<Snapshot>
    var evidence: seq<Evidence>
    var attempts: seq<Attempt>
    var errors: seq<RunError>
    var auditEvents: seq<AuditEvent>
    var costUnits: nat
    var compiledDecisionFile: Option<Id>

    function Data(): RunData
      reads this
    {
      RunData(runId, tenant, request, expectedHash, status, updatedAt, correlationId, sources, snapshots, evidence,
              attempts, errors, auditEvents, costUnits, compiledDecisionFile)
    }

    function Key(): (k: (Id, Id)) {
      (tenant, runId)
    }

    /** Reading a stored run back gives a new object with the stored contents. */
    constructor FromData(d: RunData)
      ensures Data() == d
    {
      runId, tenant, request, expectedHash := d.runId, d.tenant, d.request, d.expectedHash;
      status, updatedAt, correlationId := d.status, d.updatedAt, d.correlationId;
      sources, snapshots, evidence := d.sources, d.snapshots, d.evidence;
      attempts, errors, auditEvents, costUnits := d.attempts, d.errors, d.audit, d.costUnits;
      compiledDecisionFile := d.attachedTo;
    }

    method ApplyTransition(target: ResearchStatus, occurredAt: int, actor: Id, payload: Id, retry: bool)
      returns (r: Result<AuditEvent, TransitionError>)
      modifies this`status, this`updatedAt, this`auditEvents
      ensures (Data(), r) == TransitionOn(old(Data()), target, occurredAt, actor, payload, retry)
      ensures r.Success? <==> Transition(old(status), target, retry).Success?
      ensures r.Failure? ==> Data() == old(Data())
      ensures r.Success? ==>
                && status == target && updatedAt == occurredAt && auditEvents == old(auditEvents) + [r.value]
                && r.value == AuditEvent(
                     |old(auditEvents)| + 1, StatusTransitioned, occurredAt, actor, old(status), target, payload,
                     if old(auditEvents) == [] then None
                     else Some(AuditHash.HashOf(old(auditEvents)[|old(auditEvents)| - 1])))
    {
      var source := status;
      var moved := Transition(source, target, retry);
      if moved.Failure? {
        return Failure(moved.error);
      }
      var previous := TipHash(auditEvents);
      var event := AuditEvent(|auditEvents| + 1, StatusTransitioned, occurredAt, actor, source, target, payload,
        previous);
      status := target;
      updatedAt := occurredAt;
      auditEvents := auditEvents + [event];
      return Success(event);
    }

    method AppendEgressDecision(occurredAt: int, actor: Id, payload: Id)
      modifies this`auditEvents
      ensures Data() == EgressOn(old(Data()), occurredAt, actor, payload)
      ensures auditEvents == old(auditEvents) + [
                AuditEvent(
                  |old(auditEvents)| + 1, EgressDecided, occurredAt, actor, status, status, payload,
                  if old(auditEvents) == [] then None
                  else Some(AuditHash.HashOf(old(auditEvents)[|old(auditEvents)| - 1])))]
    {
      var previous := TipHash(auditEvents);
      var event := AuditEvent(|auditEvents| + 1, EgressDecided, occurredAt, actor, status, status, payload, previous);
      auditEvents := auditEvents + [event];
    }
  }

  // ---------------------------------------------------------------- what the log says about the run

  function StatusAfter(audit: seq<AuditEvent>): ResearchStatus {
    if audit == [] then Created else audit[|audit| - 1].toStatus
  }

  /** Event i is numbered, linked to the event before it, starts where that one ended, and goes along a legal edge. */
  predicate JoinedAt(audit: seq<AuditEvent>, i: nat)
    requires i < |audit|
  {
    && audit[i].number == i + 1
    && audit[i].previous == TipHash(audit[..i])
    && audit[i].fromStatus == StatusAfter(audit[..i])
    && match audit[i].kind
       case StatusTransitioned => LegalEdge(audit[i].fromStatus, audit[i].toStatus)
       case EgressDecided => audit[i].toStatus == audit[i].fromStatus
  }

  predicate Joined(audit: seq<AuditEvent>) {
    forall i :: 0 <= i < |audit| ==> JoinedAt(audit, i)
  }

  predicate LogInv(d: RunData) {
    Joined(d.audit) && d.status == StatusAfter(d.audit)
  }

  lemma JoinedAppend(audit: seq<AuditEvent>, e: AuditEvent)
    requires Joined(audit) && JoinedAt(audit + [e], |audit|)
    ensures Joined(audit + [e])
  {
    forall i | 0 <= i < |audit + [e]| ensures JoinedAt(audit + [e], i) {
      if i < |audit| {
        assert JoinedAt(audit, i);
        assert (audit + [e])[..i] == audit[..i];
      }
    }
  }

  lemma TransitionKeepsLog(d: RunData, target: ResearchStatus, occurredAt: int, actor: Id, payload: Id, retry: bool)
    requires LogInv(d)
    ensures LogInv(TransitionOn(d, target, occurredAt, actor, payload, retry).0)
  {
    var (d', r) := TransitionOn(d, target, occurredAt, actor, payload, retry);
    if r.Success? {
      assert (d.audit + [r.value])[..|d.audit|] == d.audit;
      JoinedAppend(d.audit, r.value);
    }
  }

  lemma EgressKeepsLog(d: RunData, occurredAt: int, actor: Id, payload: Id)
    requires LogInv(d)
    ensures LogInv(EgressOn(d, occurredAt, actor, payload))
  {
    var e := NextEvent(d, EgressDecided, occurredAt, actor, d.status, payload);
    assert (d.audit + [e])[..|d.audit|] == d.audit;
    JoinedAppend(d.audit, e);
  }

  /** Reading a log from the start, refusing an event that does not fit the status reached so far. */
  function Replay(audit: seq<AuditEvent>): Option<ResearchStatus> {
    if audit == [] then Some(Created)
    else
      var e, before := audit[|audit| - 1], Replay(audit[..|audit| - 1]);
      if before != Some(e.fromStatus) then None
      else if e.kind.EgressDecided? then if e.toStatus == e.fromStatus then before else None
      else if Transition(e.fromStatus, e.toStatus, true).Success? then Some(e.toStatus)
      else None
  }

  /** The run's status is the replay of its log. */
  lemma {:induction false} StatusIsReplay(audit: seq<AuditEvent>)
    requires Joined(audit)
    ensures Replay(audit) == Some(StatusAfter(audit))
  {
    if audit != [] {
      var init := audit[..|audit| - 1];
      assert JoinedAt(audit, |audit| - 1);
      forall i | 0 <= i < |init| ensures JoinedAt(init, i) {
        assert JoinedAt(audit, i);
        assert init[..i] == audit[..i];
      }
      StatusIsReplay(init);
    }
  }

  /** The hash of the last event fixes the whole log. */
  lemma {:induction false} TipFixesLog(a: seq<AuditEvent>, b: seq<AuditEvent>)
    requires Joined(a) && Joined(b) && TipHash(a) == TipHash(b)
    ensures a == b
  {
    if a != [] {
      var x, y := a[..|a| - 1], b[..|b| - 1];
      assert JoinedAt(a, |a| - 1) && JoinedAt(b, |b| - 1);
      forall i | 0 <= i < |x| ensures JoinedAt(x, i) && JoinedAt(y, i) {
        assert JoinedAt(a, i) && JoinedAt(b, i);
        assert x[..i] == a[..i] && y[..i] == b[..i];
      }
      TipFixesLog(x, y);
      assert a == x + [a[|a| - 1]] && b == y + [b[|b| - 1]];
    }
  }
}
