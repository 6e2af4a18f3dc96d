/**
 The leased research job queue. `Table` is the value the database holds; each repository method
 is one atomic transaction on it, given first as a function on `Table` (so that whole runs can be
 reasoned about) and then as a method of the class that updates the stored rows in place.
 */
module JobQueue {
  import opened Wrappers
  import opened JobLifecycle

  /** Identifiers are points of the database's total collation order. */
  type Id = int

  /** The primary key of a job. */
  datatype Key = Key(tenant: Id, jobId: Id)

  /** A collision-free digest of a lease token. */
  datatype LeaseHash = LeaseHash(token: nat)

  datatype Job = Job(
    runId: Id, correlationId: Id, payloadHash: Id,
    status: JobStatus, attempts: nat,
    availableAt: int, createdAt: int, updatedAt: int,
    leaseHash: Option<LeaseHash>, leaseExpires: Option<int>, lastError: Option<string>)

  datatype EventKind =
    | JobQueued | JobRequeued | JobClaimed | JobReached(status: JobStatus) | JobCancelled | JobStaleLeaseRecovered

  /** One row of the append-only event table; `sequence` is also the variable part of the event id. */
  datatype Event = Event(
    sequence: nat, kind: EventKind, occurredAt: int, correlationId: Id, workerId: Option<string>,
    reason: Option<string>)

  /** `byRun` is the unique index on (tenant, run); `log` holds the event rows of each job. */
  datatype Table = Table(jobs: map<Key, Job>, byRun: map<(Id, Id), Key>, log: map<Key, seq<Event>>)

  const EmptyTable := Table(map[], map[], map[])

  datatype JobError =
    | InvalidJobEnqueue | JobPayloadConflict | DuplicateJobId | JobNotFound | JobNotRetryable
    | InvalidWorkerId | InvalidLease | InvalidFailureReason | InvalidAttemptCount

  /** Policy and the per-tenant limits, both constant during a run. */
  datatype Config = Config(policy: JobPolicy, limits: map<Id, int>) {
    function Limit(tenant: Id): int { if tenant in limits then limits[tenant] else 2 }
  }

  // ---------------------------------------------------------------- the event log

  function EventsOf(t: Table, k: Key): seq<Event> {
    if k in t.log then t.log[k] else []
  }

  /** `COALESCE(MAX(sequence), 0)` over one job's rows. */
  function MaxSequence(events: seq<Event>): nat {
    if events == [] then 0
    else
      var rest := MaxSequence(events[..|events| - 1]);
      var last := events[|events| - 1].sequence;
      if rest < last then last else rest
  }

  /** Insert with `ON CONFLICT (tenant, job, event_id) DO NOTHING`. */
  function AppendEvent(events: seq<Event>, job: Job, kind: EventKind, now: int,
                       worker: Option<string>, reason: Option<string>): seq<Event>
  {
    var sequence := MaxSequence(events) + 1;
    if exists e :: e in events && e.sequence == sequence then events
    else events + [Event(sequence, kind, now, job.correlationId, worker, reason)]
  }

  // ---------------------------------------------------------------- transactions on the table

  /** Write a row and append the event that records it. */
  function Store(t: Table, k: Key, job: Job, kind: EventKind, now: int,
                 worker: Option<string>, reason: Option<string>): Table
  {
    t.(jobs := t.jobs[k := job], log := t.log[k := AppendEvent(EventsOf(t, k), job, kind, now, worker, reason)])
  }

  function Unleased(job: Job): Job {
    job.(leaseHash := None, leaseExpires := None)
  }

  function EnqueueOn(t: Table, tenant: Id, k: Key, job: Job): (Table, Result<Job, JobError>)
  {
    var run := (tenant, job.runId);
    if tenant != k.tenant || job.status != Queued then (t, Failure(InvalidJobEnqueue))
    else if run in t.byRun && t.byRun[run] in t.jobs then
      var existing := t.jobs[t.byRun[run]];
      if existing.payloadHash != job.payloadHash then (t, Failure(JobPayloadConflict)) else (t, Success(existing))
    else if k in t.jobs then (t, Failure(DuplicateJobId))
    else
      var row := Unleased(job).(lastError := None);
      (Store(t, k, row, JobQueued, job.updatedAt, None, None).(byRun := t.byRun[run := k]), Success(row))
  }

  function RequeueOn(t: Table, k: Key, correlationId: Id, now: int): (Table, Result<Job, JobError>)
  {
    if k !in t.jobs then (t, Failure(JobNotFound))
    else if !Retryable(t.jobs[k].status) then (t, Failure(JobNotRetryable))
    else
      var row := Unleased(t.jobs[k]).(
        status := Queued, correlationId := correlationId, attempts := 0,
        availableAt := now, lastError := None, updatedAt := now);
      (Store(t, k, row, JobRequeued, now, None, None), Success(row))
  }

  function RunningOf(jobs: map<Key, Job>, tenant: Id): set<Key> {
    set k | k in jobs && k.tenant == tenant && jobs[k].status.Running?
  }

  predicate Waiting(job: Job) { job.status.Queued? || job.status.RetryWait? }

  /** A row that is due, whatever its tenant's load. */
  predicate Due(jobs: map<Key, Job>, now: int, k: Key) {
    k in jobs && Waiting(jobs[k]) && jobs[k].availableAt <= now
  }

  /** The WHERE clause of the claim query. */
  predicate Eligible(config: Config, jobs: map<Key, Job>, now: int, k: Key) {
    Due(jobs, now, k) && |RunningOf(jobs, k.tenant)| < config.Limit(k.tenant)
  }

  /** ORDER BY available_at, created_at, tenant_id, job_id. */
  predicate Before(jobs: map<Key, Job>, a: Key, b: Key)
    requires a in jobs && b in jobs
  {
    var x, y := jobs[a], jobs[b];
    || x.availableAt < y.availableAt
    || (x.availableAt == y.availableAt && x.createdAt < y.createdAt)
    || (x.availableAt == y.availableAt && x.createdAt == y.createdAt && a.tenant < b.tenant)
    || (x.availableAt == y.availableAt && x.createdAt == y.createdAt && a.tenant == b.tenant && a.jobId < b.jobId)
  }

  /** Eligible rows that no other transaction has locked (SKIP LOCKED). */
  function Candidates(config: Config, jobs: map<Key, Job>, now: int, locked: set<Key>): set<Key> {
    set k | k in jobs && Eligible(config, jobs, now, k) && k !in locked
  }

  predicate IsFirst(jobs: map<Key, Job>, among: set<Key>, k: Key) {
    && k in among && k in jobs
    && forall o :: o in among && o in jobs ==> o == k || Before(jobs, k, o)
  }

  /** The row the claim query returns, if any. */
  ghost function First(jobs: map<Key, Job>, among: set<Key>): Option<Key> {
    if exists k :: IsFirst(jobs, among, k) then
      var k :| IsFirst(jobs, among, k);
      Some(k)
    else None
  }

  function ClaimedRow(config: Config, job: Job, token: nat, now: int): Job {
    job.(status := Running, attempts := job.attempts + 1, leaseHash := Some(LeaseHash(token)),
         leaseExpires := Some(now + config.policy.leaseSeconds), updatedAt := now)
  }

  ghost function ClaimOn(
    config: Config, t: Table, workerId: string, blank: bool, token: nat, now: int, locked: set<Key>)
    : (Table, Result<Option<Key>, JobError>)
  {
    if blank then (t, Failure(InvalidWorkerId))
    else
      match First(t.jobs, Candidates(config, t.jobs, now, locked))
      case None => (t, Success(None))
      case Some(k) =>
        (Store(t, k, ClaimedRow(config, t.jobs[k], token, now), JobClaimed, now, Some(workerId), None),
          Success(Some(k)))
  }

  /** The guard shared by heartbeat, complete and fail. */
  predicate Holds(t: Table, k: Key, token: nat, now: int) {
    && k in t.jobs
    && t.jobs[k].status.Running?
    && t.jobs[k].leaseHash == Some(LeaseHash(token))
    && t.jobs[k].leaseExpires.Some?
    && t.jobs[k].leaseExpires.value > now
  }

  function HeartbeatOn(config: Config, t: Table, k: Key, token: nat, now: int): (Table, Result<(), JobError>) {
    if !Holds(t, k, token, now) then (t, Failure(InvalidLease))
    else
      (t.(jobs := t.jobs[k := t.jobs[k].(leaseExpires := Some(now + config.policy.leaseSeconds), updatedAt := now)]),
       Success(()))
  }

  function CompleteOn(t: Table, k: Key, token: nat, partial: bool, now: int): (Table, Result<(), JobError>)
  {
    if !Holds(t, k, token, now) then (t, Failure(InvalidLease))
    else
      var target := if partial then Partial else Completed;
      (Store(t, k, Unleased(t.jobs[k]).(status := target, updatedAt := now), JobReached(target), now, None, None),
        Success(()))
  }

  /** Where a failed or stale attempt goes, and after what delay; `None` is the rejected attempt count. */
  function NextAfterFailure(policy: JobPolicy, attempts: nat, retryable: bool): (r: Option<(JobStatus, int)>)
  {
    if retryable && attempts < policy.maxAttempts then
      match RetryDelay(policy, attempts)
      case None => None
      case Some(delay) => Some((RetryWait, delay))
    else if retryable then Some((DeadLetter, 0))
    else Some((Failed, 0))
  }

  function ReleasedRow(job: Job, next: (JobStatus, int), reason: string, now: int): Job {
    Unleased(job).(status := next.0, availableAt := now + next.1, lastError := Some(reason), updatedAt := now)
  }

  function FailOn(config: Config, t: Table, k: Key, token: nat, reason: string, retryable: bool, now: int)
    : (Table, Result<(), JobError>)
  {
    if |reason| == 0 || |reason| > 128 then (t, Failure(InvalidFailureReason))
    else if !Holds(t, k, token, now) then (t, Failure(InvalidLease))
    else
      match NextAfterFailure(config.policy, t.jobs[k].attempts, retryable)
      case None => (t, Failure(InvalidAttemptCount))
      case Some(next) =>
        (Store(t, k, ReleasedRow(t.jobs[k], next, reason, now), JobReached(next.0), now, None, Some(reason)),
          Success(()))
  }

  function CancelOn(t: Table, k: Key, now: int): (Table, Result<Job, JobError>)
  {
    if k !in t.jobs then (t, Failure(JobNotFound))
    else if Terminal(t.jobs[k].status) then (t, Success(t.jobs[k]))
    else
      var row := Unleased(t.jobs[k]).(status := Cancelled, updatedAt := now);
      (Store(t, k, row, JobCancelled, now, None, None), Success(row))
  }

  const STALE_LEASE_RECOVERED := "STALE_LEASE_RECOVERED"

  predicate Stale(t: Table, now: int, k: Key) {
    k in t.jobs && t.jobs[k].status.Running? && t.jobs[k].leaseExpires.Some? && t.jobs[k].leaseExpires.value <= now
  }

  /** A result of the recovery SELECT: stale rows that no other transaction has locked, by expiry. */
  predicate StaleSelection(t: Table, rows: seq<Key>, now: int) {
    && (forall i :: 0 <= i < |rows| ==> Stale(t, now, rows[i]))
    && (forall i, j :: 0 <= i < j < |rows| ==> rows[i] != rows[j])
    && (forall i, j :: 0 <= i < j < |rows| ==> t.jobs[rows[i]].leaseExpires.value <= t.jobs[rows[j]].leaseExpires.value)
  }

  /** The loop body of the sweep; `None` is a raised exception, which rolls the transaction back. */
  function RecoverRow(config: Config, t: Table, k: Key, now: int): Option<Table>
  {
    if k !in t.jobs then Some(t)
    else
      match NextAfterFailure(config.policy, t.jobs[k].attempts, true)
      case None => None
      case Some(next) =>
        Some(Store(t, k, ReleasedRow(t.jobs[k], next, STALE_LEASE_RECOVERED, now), JobStaleLeaseRecovered, now, None,
          None))
  }

  function RecoverRows(config: Config, t: Table, rows: seq<Key>, now: int): Option<Table>
  {
    if rows == [] then Some(t)
    else
      match RecoverRows(config, t, rows[..|rows| - 1], now)
      case None => None
      case Some(t') => RecoverRow(config, t', rows[|rows| - 1], now)
  }

  // ---------------------------------------------------------------- runs

  /** One transaction of one of the interleaved callers: submitter, worker, canceller, sweep, retrier. */
  datatype Op =
    | OpEnqueue(tenant: Id, key: Key, job: Job)
    | OpRequeue(key: Key, correlationId: Id, now: int)
    | OpClaim(workerId: string, blank: bool, token: nat, now: int, locked: set<Key>)
    | OpHeartbeat(key: Key, token: nat, now: int)
    | OpComplete(key: Key, token: nat, partial: bool, now: int)
    | OpFail(key: Key, token: nat, reason: string, retryable: bool, now: int)
    | OpCancel(key: Key, now: int)
    | OpRecover(rows: seq<Key>, now: int)

  ghost function Apply(config: Config, t: Table, op: Op): Table {
    match op
    case OpEnqueue(tenant, key, job) => EnqueueOn(t, tenant, key, job).0
    case OpRequeue(key, correlationId, now) => RequeueOn(t, key, correlationId, now).0
    case OpClaim(workerId, blank, token, now, locked) => ClaimOn(config, t, workerId, blank, token, now, locked).0
    case OpHeartbeat(key, token, now) => HeartbeatOn(config, t, key, token, now).0
    case OpComplete(key, token, partial, now) => CompleteOn(t, key, token, partial, now).0
    case OpFail(key, token, reason, retryable, now) => FailOn(config, t, key, token, reason, retryable, now).0
    case OpCancel(key, now) => CancelOn(t, key, now).0
    case OpRecover(rows, now) => RecoverOn(config, t, rows, now).0
  }

  /** The whole sweep: nothing unless `rows` is a possible answer of its SELECT. */
  function RecoverOn(config: Config, t: Table, rows: seq<Key>, now: int): (Table, Result<nat, JobError>) {
    if !StaleSelection(t, rows, now) then (t, Success(0))
    else
      match RecoverRows(config, t, rows, now)
      case None => (t, Failure(InvalidAttemptCount))
      case Some(t') => (t', Success(|rows|))
  }

  /** `ts` lists the tables a run goes through: any interleaving, any clock values. */
  ghost predicate History(config: Config, ops: seq<Op>, ts: seq<Table>) {
    && |ts| == |ops| + 1
    && ts[0] == EmptyTable
    && forall i {:trigger ops[i]} :: 0 <= i < |ops| ==> ts[i + 1] == Apply(config, ts[i], ops[i])
  }

  // ---------------------------------------------------------------- the claim order

  /** A non-empty set of rows has a first row in the claim order. */
  lemma {:induction false} FirstExists(jobs: map<Key, Job>, among: set<Key>)
    requires among <= jobs.Keys && among != {}
    ensures exists k :: IsFirst(jobs, among, k)
    decreases among
  {
    var x :| x in among;
    if among == {x} {
      assert IsFirst(jobs, among, x);
    } else {
      FirstExists(jobs, among - {x});
      var m :| IsFirst(jobs, among - {x}, m);
      if Before(jobs, m, x) {
        assert IsFirst(jobs, among, m);
      } else {
        assert IsFirst(jobs, among, x);
      }
    }
  }

  lemma FirstIsUnique(jobs: map<Key, Job>, among: set<Key>, a: Key, b: Key)
    requires IsFirst(jobs, among, a) && IsFirst(jobs, among, b)
    ensures a == b
  {
  }

  // ---------------------------------------------------------------- what the transactions mean

  /** The job runs under this token and its lease has not run out. */
  predicate LeaseLives(jobs: map<Key, Job>, k: Key, token: nat, now: int) {
    && k in jobs && jobs[k].status == Running && jobs[k].leaseHash == Some(LeaseHash(token))
    && jobs[k].leaseExpires.Some? && now < jobs[k].leaseExpires.value
  }

  /** The job waits, its time has come, and its tenant runs fewer jobs than it may. */
  predicate Claimable(config: Config, jobs: map<Key, Job>, k: Key, now: int)
    requires k in jobs
  {
    && jobs[k].status in {Queued, RetryWait} && jobs[k].availableAt <= now
    && |set o | o in jobs && o.tenant == k.tenant && jobs[o].status == Running| < config.Limit(k.tenant)
  }

  /** First by the time it became due, then by its creation, tenant and id. */
  predicate Precedes(jobs: map<Key, Job>, a: Key, b: Key)
    requires a in jobs && b in jobs
  {
    && jobs[a].availableAt <= jobs[b].availableAt
    && (jobs[a].availableAt == jobs[b].availableAt ==> jobs[a].createdAt <= jobs[b].createdAt)
    && (jobs[a].availableAt == jobs[b].availableAt && jobs[a].createdAt == jobs[b].createdAt ==>
          a.tenant < b.tenant || (a.tenant == b.tenant && a.jobId <= b.jobId))
  }

  lemma ClaimableExactly(config: Config, jobs: map<Key, Job>, k: Key, now: int)
    requires k in jobs
    ensures Claimable(config, jobs, k, now) <==> Eligible(config, jobs, now, k)
  {
    assert RunningOf(jobs, k.tenant) == set o | o in jobs && o.tenant == k.tenant && jobs[o].status == Running;
  }

  /** The first candidate is unlocked, claimable and precedes every other such row; without candidates none is. */
  lemma CandidatesMean(config: Config, jobs: map<Key, Job>, now: int, locked: set<Key>)
    ensures var candidates := Candidates(config, jobs, now, locked);
      && (forall o :: o in candidates <==> o in jobs && o !in locked && Claimable(config, jobs, o, now))
      && (forall c, o :: IsFirst(jobs, candidates, c) && o in candidates ==> Precedes(jobs, c, o))
  {
    forall o | o in jobs ensures Claimable(config, jobs, o, now) <==> Eligible(config, jobs, now, o) {
      ClaimableExactly(config, jobs, o, now);
    }
    hide Claimable, Eligible;
  }

  /** The row of a failed attempt: over for good, over its attempts, or due again after the back-off. */
  predicate FailedRow(policy: JobPolicy, before: Job, after: Job, retryable: bool, reason: string, now: int) {
    && after == before.(status := after.status, availableAt := after.availableAt, updatedAt := now,
                        leaseHash := None, leaseExpires := None, lastError := Some(reason))
    && (!retryable ==> after.status == Failed && after.availableAt == now)
    && (retryable && before.attempts >= policy.maxAttempts ==> after.status == DeadLetter && after.availableAt == now)
    && (retryable && before.attempts < policy.maxAttempts ==>
          && after.status == RetryWait && before.attempts >= 1
          && (policy.Valid() ==>
                after.availableAt == now + Min(policy.maximumBackoff, policy.baseBackoff * Pow2(before.attempts - 1))))
  }

  lemma FailWrites(config: Config, t: Table, k: Key, token: nat, reason: string, retryable: bool, now: int)
    requires FailOn(config, t, k, token, reason, retryable, now).1.Success?
    ensures var t' := FailOn(config, t, k, token, reason, retryable, now).0;
      && k in t.jobs && k in t'.jobs && t'.jobs == t.jobs[k := t'.jobs[k]] && t'.byRun == t.byRun
      && FailedRow(config.policy, t.jobs[k], t'.jobs[k], retryable, reason, now)
  {
    if retryable && t.jobs[k].attempts < config.policy.maxAttempts && config.policy.Valid() {
      RetryDelayIsUncapped(config.policy, t.jobs[k].attempts);
    }
  }

  lemma RecoverWrites(config: Config, t: Table, k: Key, now: int)
    requires k in t.jobs && RecoverRow(config, t, k, now).Some?
    ensures var t' := RecoverRow(config, t, k, now).value;
      && k in t'.jobs && t'.jobs == t.jobs[k := t'.jobs[k]] && t'.byRun == t.byRun
      && FailedRow(config.policy, t.jobs[k], t'.jobs[k], true, STALE_LEASE_RECOVERED, now)
  {
    if t.jobs[k].attempts < config.policy.maxAttempts && config.policy.Valid() {
      RetryDelayIsUncapped(config.policy, t.jobs[k].attempts);
    }
  }

  /**
   After the sweep every selected row is as after a failed attempt that may be tried again; the others are as before.
   */
  ghost predicate SweptRows(config: Config, before: map<Key, Job>, after: map<Key, Job>, rows: seq<Key>, now: int) {
    && after.Keys == before.Keys
    && forall k :: k in before ==>
         if k in rows then FailedRow(config.policy, before[k], after[k], true, STALE_LEASE_RECOVERED, now)
         else after[k] == before[k]
  }

  lemma {:induction false} SweepWrites(config: Config, t: Table, rows: seq<Key>, now: int)
    requires forall i, j :: 0 <= i < j < |rows| ==> rows[i] != rows[j]
    requires RecoverRows(config, t, rows, now).Some?
    ensures SweptRows(config, t.jobs, RecoverRows(config, t, rows, now).value.jobs, rows, now)
  {
    hide RecoverRow, FailedRow;
    if rows != [] {
      var init, last := rows[..|rows| - 1], rows[|rows| - 1];
      assert rows == init + [last] && last !in init;
      SweepWrites(config, t, init, now);
      if last in t.jobs {
        RecoverWrites(config, RecoverRows(config, t, init, now).value, last, now);
      } else {
        RecoverMissing(config, RecoverRows(config, t, init, now).value, last, now);
      }
    }
  }

  lemma RecoverMissing(config: Config, t: Table, k: Key, now: int)
    requires k !in t.jobs
    ensures RecoverRow(config, t, k, now) == Some(t)
  {
  }

  // ---------------------------------------------------------------- the repository object

  class PostgresJobRepository {
    const config: Config
    var jobs: map<Key, Job>
    var byRun: map<(Id, Id), Key>
    var log: map<Key, seq<Event>>

    function View(): Table
      reads this
    {
      Table(jobs, byRun, log)
    }

    constructor (config: Config)
      ensures View() == EmptyTable && this.config == config
    {
      this.config := config;
      jobs, byRun, log := map[], map[], map[];
    }

    method LogEvent(k: Key, job: Job, kind: EventKind, now: int, worker: Option<string>, reason: Option<string>)
      modifies this`log
      ensures log == old(log)[k := AppendEvent(EventsOf(old(View()), k), job, kind, now, worker, reason)]
    {
      var events := EventsOf(View(), k);
      var sequence := MaxSequence(events) + 1;
      if !exists e :: e in events && e.sequence == sequence {
        events := events + [Event(sequence, kind, now, job.correlationId, worker, reason)];
      }
      log := log[k := events];
    }

    method Enqueue(tenant: Id, k: Key, job: Job) returns (r: Result<Job, JobError>)
      modifies this
      ensures (View(), r) == EnqueueOn(old(View()), tenant, k, job)
      ensures r.Failure? ==> View() == old(View())
      ensures r.Success? ==>
                || (r.value.payloadHash == job.payloadHash && View() == old(View()))
                || (k !in old(jobs) && r.value == job.(leaseHash := None, leaseExpires := None, lastError := None)
                    && jobs == old(jobs)[k := r.value] && byRun == old(byRun)[(tenant, job.runId) := k])
    {
      if tenant != k.tenant || job.status != Queued {
        return Failure(InvalidJobEnqueue);
      }
      var run := (tenant, job.runId);
      var inserted := !(run in byRun && byRun[run] in jobs);
      if inserted {
        if k in jobs {
          return Failure(DuplicateJobId);
        }
        jobs := jobs[k := Unleased(job).(lastError := None)];
        byRun := byRun[run := k];
      }
      var existing := jobs[byRun[run]];
      if existing.payloadHash != job.payloadHash {
        return Failure(JobPayloadConflict);
      }
      if inserted {
        LogEvent(k, existing, JobQueued, job.updatedAt, None, None);
      }
      return Success(existing);
    }

    method Requeue(k: Key, correlationId: Id, now: int) returns (r: Result<Job, JobError>)
      modifies this
      ensures (View(), r) == RequeueOn(old(View()), k, correlationId, now)
      ensures r == Failure(JobNotFound) <==> k !in old(jobs)
      ensures r.Success? <==> k in old(jobs) && old(jobs)[k].status in {Completed, Partial, Failed, DeadLetter}
      ensures r.Failure? ==> View() == old(View())
      ensures r.Success? ==>
                && jobs == old(jobs)[k := r.value]
                && r.value == old(jobs)[k].(
                                status := Queued, correlationId := correlationId, attempts := 0, availableAt := now,
                                leaseHash := None, leaseExpires := None, lastError := None, updatedAt := now)
    {
      if k in jobs && Retryable(jobs[k].status) {
        var job := Unleased(jobs[k]).(
          status := Queued, correlationId := correlationId, attempts := 0,
          availableAt := now, lastError := None, updatedAt := now);
        jobs := jobs[k := job];
        LogEvent(k, job, JobRequeued, now, None, None);
        return Success(job);
      }
      return Failure(if k !in jobs then JobNotFound else JobNotRetryable);
    }

    method Claim(workerId: string, blank: bool, token: nat, now: int, locked: set<Key>)
      returns (r: Result<Option<Key>, JobError>)
      modifies this
      ensures (View(), r) == ClaimOn(config, old(View()), workerId, blank, token, now, locked)
      ensures r.Failure? <==> blank
      ensures blank || r.value.None? ==> View() == old(View())
      ensures r == Success(None) ==> forall o :: o in old(jobs) && o !in locked ==>
              !Claimable(config, old(jobs), o, now)
      ensures r.Success? && r.value.Some? ==>
                var c := r.value.value;
                && c in old(jobs) && c !in locked && Claimable(config, old(jobs), c, now)
                && (forall o :: o in old(jobs) && o !in locked && Claimable(config, old(jobs), o, now) ==>
                      Precedes(old(jobs), c, o))
                && jobs == old(jobs)[c := old(jobs)[c].(
                             status := Running, attempts := old(jobs)[c].attempts + 1, updatedAt := now,
                             leaseHash := Some(LeaseHash(token)),
                             leaseExpires := Some(now + config.policy.leaseSeconds))]
    {
      if blank {
        return Failure(InvalidWorkerId);
      }
      var candidates := Candidates(config, jobs, now, locked);
      CandidatesMean(config, jobs, now, locked);
      hide Claimable, Precedes, Candidates;
      if candidates == {} {
        return Success(None);
      }
      FirstExists(jobs, candidates);
      var k :| k in candidates && IsFirst(jobs, candidates, k);
      FirstIsUnique(jobs, candidates, k, First(jobs, candidates).value);
      jobs := jobs[k := ClaimedRow(config, jobs[k], token, now)];
      LogEvent(k, jobs[k], JobClaimed, now, Some(workerId), None);
      return Success(Some(k));
    }

    method Heartbeat(k: Key, token: nat, now: int) returns (r: Result<(), JobError>)
      modifies this
      ensures (View(), r) == HeartbeatOn(config, old(View()), k, token, now)
      ensures r.Success? <==> LeaseLives(old(jobs), k, token, now)
      ensures r.Failure? ==> View() == old(View())
      ensures r.Success? ==>
                && log == old(log)
                && jobs == old(jobs)[k := old(jobs)[k].(
                             leaseExpires := Some(now + config.policy.leaseSeconds), updatedAt := now)]
    {
      if !Holds(View(), k, token, now) {
        return Failure(InvalidLease);
      }
      jobs := jobs[k := jobs[k].(leaseExpires := Some(now + config.policy.leaseSeconds), updatedAt := now)];
      return Success(());
    }

    method Complete(k: Key, token: nat, partial: bool, now: int) returns (r: Result<(), JobError>)
      modifies this
      ensures (View(), r) == CompleteOn(old(View()), k, token, partial, now)
      ensures r.Success? <==> LeaseLives(old(jobs), k, token, now)
      ensures r.Failure? ==> View() == old(View())
      ensures r.Success? ==>
                jobs == old(jobs)[k := old(jobs)[k].(
                          status := if partial then Partial else Completed,
                          leaseHash := None, leaseExpires := None, updatedAt := now)]
    {
      var target := if partial then Partial else Completed;
      if !Holds(View(), k, token, now) {
        return Failure(InvalidLease);
      }
      jobs := jobs[k := Unleased(jobs[k]).(status := target, updatedAt := now)];
      LogEvent(k, jobs[k], JobReached(target), now, None, None);
      return Success(());
    }

    method Fail(k: Key, token: nat, reason: string, retryable: bool, now: int) returns (r: Result<(), JobError>)
      modifies this
      ensures (View(), r) == FailOn(config, old(View()), k, token, reason, retryable, now)
      ensures r.Success? <==>
              && 0 < |reason| <= 128 && LeaseLives(old(jobs), k, token, now)
              && !(retryable && old(jobs)[k].attempts == 0 < config.policy.maxAttempts)
      ensures r.Failure? ==> View() == old(View())
      ensures r.Success? ==>
                && k in jobs && jobs == old(jobs)[k := jobs[k]]
                && FailedRow(config.policy, old(jobs)[k], jobs[k], retryable, reason, now)
    {
      if |reason| == 0 || |reason| > 128 {
        return Failure(InvalidFailureReason);
      }
      if !Holds(View(), k, token, now) {
        return Failure(InvalidLease);
      }
      var next := NextAfterFailure(config.policy, jobs[k].attempts, retryable);
      if next.None? {
        return Failure(InvalidAttemptCount);
      }
      FailWrites(config, View(), k, token, reason, retryable, now);
      jobs := jobs[k := ReleasedRow(jobs[k], next.value, reason, now)];
      LogEvent(k, jobs[k], JobReached(next.value.0), now, None, Some(reason));
      return Success(());
    }

    method Cancel(k: Key, now: int) returns (r: Result<Job, JobError>)
      modifies this
      ensures (View(), r) == CancelOn(old(View()), k, now)
      ensures r.Failure? <==> k !in old(jobs)
      ensures k in old(jobs) && old(jobs)[k].status in {Completed, Partial, Failed, Cancelled, DeadLetter} ==>
                r.value == old(jobs)[k] && View() == old(View())
      ensures k in old(jobs) && old(jobs)[k].status in {Queued, Running, RetryWait} ==>
                && jobs == old(jobs)[k := r.value]
                && r.value == old(jobs)[k].(
                                status := Cancelled, leaseHash := None, leaseExpires := None, updatedAt := now)
    {
      if k !in jobs {
        return Failure(JobNotFound);
      }
      if Terminal(jobs[k].status) {
        return Success(jobs[k]);
      }
      jobs := jobs[k := Unleased(jobs[k]).(status := Cancelled, updatedAt := now)];
      LogEvent(k, jobs[k], JobCancelled, now, None, None);
      return Success(jobs[k]);
    }

    /** The loop body of the sweep. */
    method RecoverOne(k: Key, now: int) returns (ok: bool)
      modifies this
      ensures RecoverRow(config, old(View()), k, now) == if ok then Some(View()) else None
      ensures !ok ==> View() == old(View())
    {
      if k !in jobs {
        return true;
      }
      var next := NextAfterFailure(config.policy, jobs[k].attempts, true);
      if next.None? {
        return false;
      }
      jobs := jobs[k := ReleasedRow(jobs[k], next.value, STALE_LEASE_RECOVERED, now)];
      LogEvent(k, jobs[k], JobStaleLeaseRecovered, now, None, None);
      return true;
    }

    /** `rows` is what the SELECT returned. A raised exception undoes every row of the sweep. */
    method RecoverStale(rows: seq<Key>, now: int) returns (r: Result<nat, JobError>)
      requires StaleSelection(View(), rows, now)
      modifies this
      ensures (View(), r) == RecoverOn(config, old(View()), rows, now)
      ensures r.Failure? ==> View() == old(View())
      ensures r.Success? ==> r.value == |rows| && SweptRows(config, old(jobs), jobs, rows, now)
    {
      hide RecoverRow, FailedRow;
      var recovered := 0;
      var saved := View();
      for i := 0 to |rows|
        invariant recovered == i
        invariant RecoverRows(config, saved, rows[..i], now) == Some(View())
      {
        assert rows[..i + 1][..i] == rows[..i];
        var ok := RecoverOne(rows[i], now);
        if !ok {
          RecoverRowsFails(config, saved, rows, i + 1, now);
          jobs, byRun, log := saved.jobs, saved.byRun, saved.log;
          return Failure(InvalidAttemptCount);
        }
        recovered := recovered + 1;
      }
      assert rows[..|rows|] == rows;
      SweepWrites(config, saved, rows, now);
      return Success(recovered);
    }

    method IsCancelled(k: Key) returns (r: bool)
      ensures r <==> k in jobs && jobs[k].status.Cancelled?
    {
      r := k in jobs && jobs[k].status == Cancelled;
    }
  }

  lemma {:induction false} RecoverRowsFails(config: Config, t: Table, rows: seq<Key>, n: nat, now: int)
    requires n <= |rows| && RecoverRows(config, t, rows[..n], now).None?
    ensures RecoverRows(config, t, rows, now).None?
  {
    if n == |rows| {
      assert rows[..n] == rows;
    } else {
      assert rows[..|rows| - 1][..n] == rows[..n];
      RecoverRowsFails(config, t, rows[..|rows| - 1], n, now);
    }
  }
}
