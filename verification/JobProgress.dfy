/**
 Progress of the queue. A weight summed over all jobs strictly falls on every effective transaction that
 is not a heartbeat, an enqueue or a requeue, so without new work every run runs out of effective steps.
 */
module JobProgress {
  import opened Wrappers
  import opened JobLifecycle
  import opened JobQueue
  import opened JobLog

  /** How many more effective transactions one job can absorb. */
  function Weight(policy: JobPolicy, job: Job): int {
    if Waiting(job) then 2 * (policy.maxAttempts - job.attempts)
    else if job.status.Running? then 2 * (policy.maxAttempts - job.attempts) + 1
    else 0
  }

  ghost function Total(policy: JobPolicy, jobs: map<Key, Job>): int
    decreases |jobs.Keys|
  {
    if jobs.Keys == {} then 0
    else
      var k :| k in jobs.Keys;
      assert (jobs - {k}).Keys == jobs.Keys - {k};
      Weight(policy, jobs[k]) + Total(policy, jobs - {k})
  }

  /** The sum does not depend on which row is taken out first. */
  lemma {:induction false} TotalSplit(policy: JobPolicy, jobs: map<Key, Job>, k: Key)
    requires k in jobs
    ensures Total(policy, jobs) == Weight(policy, jobs[k]) + Total(policy, jobs - {k})
    decreases |jobs.Keys|
  {
    var first :| first in jobs.Keys
      && Total(policy, jobs) == Weight(policy, jobs[first]) + Total(policy, jobs - {first});
    assert (jobs - {first}).Keys == jobs.Keys - {first};
    if first != k {
      assert (jobs - {k}).Keys == jobs.Keys - {k};
      TotalSplit(policy, jobs - {first}, k);
      TotalSplit(policy, jobs - {k}, first);
      assert jobs - {first} - {k} == jobs - {k} - {first};
    }
  }

  /** Rewriting (or adding) one row changes the sum by that row's change. */
  lemma TotalUpdate(policy: JobPolicy, jobs: map<Key, Job>, k: Key, job: Job)
    ensures Total(policy, jobs[k := job])
         == Total(policy, jobs) + Weight(policy, job) - if k in jobs then Weight(policy, jobs[k]) else 0
  {
    TotalSplit(policy, jobs[k := job], k);
    if k in jobs {
      TotalSplit(policy, jobs, k);
      assert jobs[k := job] - {k} == jobs - {k};
    } else {
      assert jobs[k := job] - {k} == jobs;
    }
  }

  lemma {:induction false} TotalNotNegative(config: Config, jobs: map<Key, Job>)
    requires forall k :: k in jobs ==> WellFormed(config.policy, jobs[k])
    ensures 0 <= Total(config.policy, jobs)
    decreases |jobs.Keys|
  {
    if k :| k in jobs.Keys {
      TotalSplit(config.policy, jobs, k);
      assert (jobs - {k}).Keys == jobs.Keys - {k};
      TotalNotNegative(config, jobs - {k});
    }
  }

  // ---------------------------------------------------------------- one transaction

  /** New work: an insertion or a requeue that took place. */
  ghost predicate Supplies(config: Config, t: Table, op: Op) {
    (op.OpEnqueue? || op.OpRequeue?) && Apply(config, t, op) != t
  }

  /** A transaction other than a heartbeat or new work that changed the table. */
  ghost predicate Consumes(config: Config, t: Table, op: Op) {
    !op.OpHeartbeat? && !op.OpEnqueue? && !op.OpRequeue? && Apply(config, t, op) != t
  }

  /** The sweep over distinct running rows takes at least one off the sum for each of them. */
  lemma {:induction false} SweepFalls(config: Config, t: Table, rows: seq<Key>, now: int)
    requires config.policy.Valid() && (forall k :: JobInv(config, t, k))
    requires forall i :: 0 <= i < |rows| ==> rows[i] in t.jobs && t.jobs[rows[i]].status.Running?
    requires forall i, j :: 0 <= i < j < |rows| ==> rows[i] != rows[j]
    ensures RecoverRows(config, t, rows, now).Some?
    ensures Total(config.policy, RecoverRows(config, t, rows, now).value.jobs) <= Total(config.policy, t.jobs) - |rows|
  {
    RecoverRowsSucceed(config, t, rows, now);
    if rows != [] {
      var init, last := rows[..|rows| - 1], rows[|rows| - 1];
      SweepFalls(config, t, init, now);
      var t1 := RecoverRows(config, t, init, now).value;
      RecoverRowsPointwise(config, t, init, now, last);
      assert last !in init;
      assert JobInv(config, t, last);
      RecoverRowKeeps(config, t, last, now);
      var t2 := RecoverRows(config, t, rows, now).value;
      assert t2.jobs == t1.jobs[last := t2.jobs[last]];
      TotalUpdate(config.policy, t1.jobs, last, t2.jobs[last]);
    }
  }

  /** One job's weight after a single-row transaction that changed the table. */
  lemma RowWeight(config: Config, t: Table, op: Op, k: Key)
    requires config.policy.Valid() && SubmittedUnattempted(op) && JobInv(config, t, k)
    requires !op.OpRecover? && Target(config, t, op) == Some(k) && Apply(config, t, op) != t
    ensures k in Apply(config, t, op).jobs
    ensures Apply(config, t, op).jobs == t.jobs[k := Apply(config, t, op).jobs[k]]
    ensures var before := if k in t.jobs then Weight(config.policy, t.jobs[k]) else 0;
      var after := Weight(config.policy, Apply(config, t, op).jobs[k]);
      if op.OpEnqueue? || op.OpRequeue? then after == before + 2 * config.policy.maxAttempts
      else if op.OpHeartbeat? then after == before
      else after < before
  {
    hide JobLog.Replay, AppendEvent;
  }

  lemma SingleRowWeight(config: Config, t: Table, op: Op)
    requires config.policy.Valid() && SubmittedUnattempted(op) && (forall k :: JobInv(config, t, k))
    requires !op.OpRecover? && Apply(config, t, op) != t
    ensures var before, after := Total(config.policy, t.jobs), Total(config.policy, Apply(config, t, op).jobs);
      if op.OpEnqueue? || op.OpRequeue? then after == before + 2 * config.policy.maxAttempts
      else if op.OpHeartbeat? then after == before
      else after < before
  {
    TargetExists(config, t, op);
    var k := Target(config, t, op).value;
    assert JobInv(config, t, k);
    RowWeight(config, t, op, k);
    hide JobQueue.Apply, Weight, JobInv;
    TotalUpdate(config.policy, t.jobs, k, Apply(config, t, op).jobs[k]);
  }

  lemma TargetExists(config: Config, t: Table, op: Op)
    requires !op.OpRecover? && Apply(config, t, op) != t
    ensures Target(config, t, op).Some?
  {
  }

  lemma StepWeight(config: Config, t: Table, op: Op)
    requires config.policy.Valid() && SubmittedUnattempted(op) && (forall k :: JobInv(config, t, k))
    ensures Consumes(config, t, op) ==> Total(config.policy, Apply(config, t, op).jobs) < Total(config.policy, t.jobs)
    ensures Supplies(config, t, op) ==>
              Total(config.policy, Apply(config, t, op).jobs)
              == Total(config.policy, t.jobs) + 2 * config.policy.maxAttempts
    ensures !Supplies(config, t, op) ==>
              Total(config.policy, Apply(config, t, op).jobs) <= Total(config.policy, t.jobs)
  {
    if op.OpRecover? {
      if StaleSelection(t, op.rows, op.now) {
        SweepFalls(config, t, op.rows, op.now);
      }
    } else {
      hide JobQueue.Apply, JobInv, Total;
      if Apply(config, t, op) != t {
        SingleRowWeight(config, t, op);
      }
    }
  }

  // ---------------------------------------------------------------- whole runs

  ghost function SuppliesUpTo(config: Config, ops: seq<Op>, ts: seq<Table>, i: nat): nat
    requires |ts| == |ops| + 1 && i <= |ops|
  {
    if i == 0 then 0
    else SuppliesUpTo(config, ops, ts, i - 1) + if Supplies(config, ts[i - 1], ops[i - 1]) then 1 else 0
  }

  ghost function ConsumesUpTo(config: Config, ops: seq<Op>, ts: seq<Table>, i: nat): nat
    requires |ts| == |ops| + 1 && i <= |ops|
  {
    if i == 0 then 0
    else ConsumesUpTo(config, ops, ts, i - 1) + if Consumes(config, ts[i - 1], ops[i - 1]) then 1 else 0
  }

  lemma {:induction false} WeightBudget(config: Config, ops: seq<Op>, ts: seq<Table>, i: nat)
    requires config.policy.Valid() && History(config, ops, ts) && AllUnattempted(ops) && i <= |ops|
    ensures ConsumesUpTo(config, ops, ts, i) + Total(config.policy, ts[i].jobs)
         <= 2 * config.policy.maxAttempts * SuppliesUpTo(config, ops, ts, i)
  {
    hide Apply;
    if i > 0 {
      var perJob, before := 2 * config.policy.maxAttempts, SuppliesUpTo(config, ops, ts, i - 1);
      assert perJob * (before + 1) == perJob * before + perJob;
      WeightBudget(config, ops, ts, i - 1);
      var t := ts[i - 1];
      forall k ensures JobInv(config, t, k) {
        RunKeeps(config, ops, ts, i - 1, k);
      }
      StepWeight(config, t, ops[i - 1]);
      assert ts[i] == Apply(config, t, ops[i - 1]);
    }
  }

  /**
   Every run, however its callers interleave, makes at most `2 * max_attempts` effective claims, outcomes,
   cancellations and recoveries for each job enqueued or requeued in it.
   */
  lemma RunsRunOut(config: Config, ops: seq<Op>, ts: seq<Table>)
    requires config.policy.Valid() && History(config, ops, ts) && AllUnattempted(ops)
    ensures ConsumesUpTo(config, ops, ts, |ops|) <= 2 * config.policy.maxAttempts * SuppliesUpTo(config, ops, ts, |ops|)
  {
    WeightBudget(config, ops, ts, |ops|);
    var t := ts[|ops|];
    forall k | k in t.jobs ensures WellFormed(config.policy, t.jobs[k]) {
      RunKeeps(config, ops, ts, |ops|, k);
    }
    TotalNotNegative(config, t.jobs);
  }

  /** Claim events since the job was last queued or requeued. */
  function ClaimsSinceQueued(events: seq<Event>): nat {
    if events == [] then 0
    else
      var last := events[|events| - 1].kind;
      if last.JobQueued? || last.JobRequeued? then 0
      else ClaimsSinceQueued(events[..|events| - 1]) + if last.JobClaimed? then 1 else 0
  }

  lemma {:induction false} ReplayCountsClaims(policy: JobPolicy, events: seq<Event>)
    ensures Replay(policy, events).Some? ==> Replay(policy, events).value.1 == ClaimsSinceQueued(events)
  {
    if events != [] {
      ReplayCountsClaims(policy, events[..|events| - 1]);
    }
  }

  /** Between one queueing and the next a job is claimed at most `max_attempts` times. */
  lemma ClaimsBounded(config: Config, ops: seq<Op>, ts: seq<Table>, i: nat, k: Key)
    requires config.policy.Valid() && History(config, ops, ts) && AllUnattempted(ops) && i <= |ops|
    requires k in ts[i].jobs
    ensures ts[i].jobs[k].attempts == ClaimsSinceQueued(EventsOf(ts[i], k)) <= config.policy.maxAttempts
  {
    RunKeeps(config, ops, ts, i, k);
    ReplayCountsClaims(config.policy, EventsOf(ts[i], k));
  }
}
