/**
 The lease holder's side of the queue: claim, work while heartbeating, write one outcome. Everybody else's
 transactions happen freely between the worker's own, and the run they make up together is kept as it grows.
 */
module JobWorker {
  import opened Wrappers
  import opened JobLifecycle
  import opened JobQueue
  import F = JobFencing

  /** A repository with the run of transactions made on it so far. Tokens are drawn from a counter, never twice. */
  class SharedQueue {
    const repository: PostgresJobRepository
    var nextToken: nat
    ghost var ops: seq<Op>
    ghost var ts: seq<Table>

    ghost predicate Valid()
      reads this, repository
    {
      && History(repository.config, ops, ts)
      && ts[|ops|] == repository.View()
      && F.TokensDistinct(ops)
      && (forall i :: 0 <= i < |ops| && ops[i].OpClaim? ==> ops[i].token < nextToken)
    }

    constructor (repository: PostgresJobRepository)
      requires repository.View() == EmptyTable
      ensures Valid() && this.repository == repository
    {
      this.repository := repository;
      nextToken, ops, ts := 0, [], [EmptyTable];
    }

    twostate predicate Grew()
      reads this
    {
      old(ops) <= ops && old(ts) <= ts && old(nextToken) <= nextToken
    }

    /** Recording the transaction just made. */
    ghost method Record(op: Op)
      requires |ts| == |ops| + 1 && History(repository.config, ops, ts) && F.TokensDistinct(ops)
      requires forall i :: 0 <= i < |ops| && ops[i].OpClaim? ==>
               ops[i].token < nextToken && (op.OpClaim? ==> ops[i].token < op.token)
      requires op.OpClaim? ==> op.token < nextToken
      requires repository.View() == Apply(repository.config, ts[|ops|], op)
      modifies this`ops, this`ts
      ensures Valid() && ops == old(ops) + [op] && ts == old(ts) + [repository.View()]
    {
      ops, ts := ops + [op], ts + [repository.View()];
      assert forall i :: 0 <= i < |ops| - 1 ==> ops[i] == old(ops)[i] && ts[i + 1] == old(ts)[i + 1];
    }

    method Claim(workerId: string, blank: bool, now: int, locked: set<Key>) returns (r: Result<Option<Key>, JobError>)
      requires Valid()
      modifies this, repository
      ensures Valid() && Grew() && nextToken == old(nextToken) + 1
      ensures ops == old(ops) + [OpClaim(workerId, blank, old(nextToken), now, locked)]
      ensures r == ClaimOn(repository.config, old(ts)[|old(ops)|], workerId, blank, old(nextToken), now, locked).1
      ensures r.Failure? <==> blank
      ensures blank ==> r == Failure(InvalidWorkerId)
      ensures r.Success? && r.value.Some? ==>
                F.Grants(repository.config, old(ts)[|old(ops)|], ops[|old(ops)|], r.value.value, old(nextToken))
      ensures r == Success(None) <==>
              !blank && forall o :: o in old(ts)[|old(ops)|].jobs && o !in locked ==>
                                      !Claimable(repository.config, old(ts)[|old(ops)|].jobs, o, now)
    {
      r := repository.Claim(workerId, blank, nextToken, now, locked);
      nextToken := nextToken + 1;
      Record(OpClaim(workerId, blank, nextToken - 1, now, locked));
    }

    method Heartbeat(k: Key, token: nat, now: int) returns (r: Result<(), JobError>)
      requires Valid()
      modifies this, repository
      ensures Valid() && Grew() && nextToken == old(nextToken) && ops == old(ops) + [OpHeartbeat(k, token, now)]
      ensures r.Success? <==> LeaseLives(old(ts)[|old(ops)|].jobs, k, token, now)
    {
      r := repository.Heartbeat(k, token, now);
      Record(OpHeartbeat(k, token, now));
    }

    method Complete(k: Key, token: nat, partial: bool, now: int) returns (r: Result<(), JobError>)
      requires Valid()
      modifies this, repository
      ensures Valid() && Grew() && ops == old(ops) + [OpComplete(k, token, partial, now)]
      ensures r == CompleteOn(old(ts)[|old(ops)|], k, token, partial, now).1
      ensures r.Failure? ==> ts[|ops|] == old(ts)[|old(ops)|]
      ensures r.Success? ==>
                && k in old(ts)[|old(ops)|].jobs && k in ts[|ops|].jobs
                && ts[|ops|].jobs[k] == old(ts)[|old(ops)|].jobs[k].(
                                          status := if partial then Partial else Completed, updatedAt := now,
                                          leaseHash := None, leaseExpires := None)
    {
      r := repository.Complete(k, token, partial, now);
      Record(OpComplete(k, token, partial, now));
    }

    method Fail(k: Key, token: nat, reason: string, retryable: bool, now: int) returns (r: Result<(), JobError>)
      requires Valid()
      modifies this, repository
      ensures Valid() && Grew() && ops == old(ops) + [OpFail(k, token, reason, retryable, now)]
      ensures r == FailOn(repository.config, old(ts)[|old(ops)|], k, token, reason, retryable, now).1
      ensures r.Failure? ==> ts[|ops|] == old(ts)[|old(ops)|]
      ensures r.Success? ==>
                && k in old(ts)[|old(ops)|].jobs && k in ts[|ops|].jobs
                && FailedRow(repository.config.policy, old(ts)[|old(ops)|].jobs[k], ts[|ops|].jobs[k], retryable,
                     reason, now)
    {
      r := repository.Fail(k, token, reason, retryable, now);
      Record(OpFail(k, token, reason, retryable, now));
    }

    /** Any number of transactions by anybody else, with any arguments; their claims draw their own tokens. */
    method OthersAct()
      requires Valid()
      modifies this, repository
      ensures Valid() && Grew()
    {
      var choices: seq<Op> := *;
      for i := 0 to |choices|
        invariant Valid() && Grew()
      {
        Perform(choices[i]);
      }
    }

    method Perform(op: Op)
      requires Valid()
      modifies this, repository
      ensures Valid() && Grew()
    {
      match op {
        case OpEnqueue(tenant, key, job) =>
          var _ := repository.Enqueue(tenant, key, job);
          Record(op);
        case OpRequeue(key, correlationId, now) =>
          var _ := repository.Requeue(key, correlationId, now);
          Record(op);
        case OpClaim(workerId, blank, _, now, locked) =>
          var _ := Claim(workerId, blank, now, locked);
        case OpHeartbeat(key, token, now) =>
          var _ := Heartbeat(key, token, now);
        case OpComplete(key, token, partial, now) =>
          var _ := Complete(key, token, partial, now);
        case OpFail(key, token, reason, retryable, now) =>
          var _ := Fail(key, token, reason, retryable, now);
        case OpCancel(key, now) =>
          var _ := repository.Cancel(key, now);
          Record(op);
        case OpRecover(rows, now) =>
          if StaleSelection(repository.View(), rows, now) {
            var _ := repository.RecoverStale(rows, now);
            Record(op);
          }
      }
    }
  }

  datatype Outcome = Finished(partial: bool) | RetryableError(reason: string) | TerminalError(reason: string)
    | OtherException

  datatype WorkerError = QueueError(error: JobError) | ProcessorRaised

  /**
   The processor's answer is written as it is: a finished job as complete with its own partial flag, an error as a
   failure that may or may not be tried again, with the error's own text if it fits.
   */
  predicate WritesAnswer(op: Op, answer: Outcome, k: Key, token: nat) {
    match answer
    case Finished(partial) => op.OpComplete? && op == OpComplete(k, token, partial, op.now)
    case RetryableError(text) =>
      && op.OpFail? && op == OpFail(k, token, op.reason, true, op.now)
      && op.reason == (if 0 < |text| <= 128 then text else "RETRYABLE_JOB_FAILURE")
    case TerminalError(text) =>
      && op.OpFail? && op == OpFail(k, token, op.reason, false, op.now)
      && op.reason == (if 0 < |text| <= 128 then text else "NON_RETRYABLE_JOB_FAILURE")
    case OtherException => false
  }

  /** The row after the accepted write of the answer. */
  predicate AnswerRow(policy: JobPolicy, before: Job, after: Job, answer: Outcome, op: Op) {
    match answer
    case Finished(partial) =>
      op.OpComplete? && after == before.(status := if partial then Partial else Completed, updatedAt := op.now,
                                         leaseHash := None, leaseExpires := None)
    case RetryableError(_) => op.OpFail? && FailedRow(policy, before, after, true, op.reason, op.now)
    case TerminalError(_) => op.OpFail? && FailedRow(policy, before, after, false, op.reason, op.now)
    case OtherException => false
  }

  /**
   Since step `from` a look for a cancellation raised, the job was seen CANCELLED, or a beat of this token was refused.
   */
  ghost predicate Disturbed(ops: seq<Op>, ts: seq<Table>, from: nat, k: Key, token: nat, raises: nat -> bool) {
    || (exists i :: raises(i))
    || (exists m :: from < m <= |ops| && m < |ts| && k in ts[m].jobs && ts[m].jobs[k].status == Cancelled)
    || (exists m :: from < m < |ops| && m < |ts| && RefusedBeat(ts[m], ops[m], k, token))
  }

  predicate RefusedBeat(t: Table, op: Op, k: Key, token: nat) {
    op.OpHeartbeat? && op.key == k && op.token == token && !LeaseLives(t.jobs, k, token, op.now)
  }

  lemma DisturbedStays(
    ops: seq<Op>, ts: seq<Table>, ops': seq<Op>, ts': seq<Table>, from: nat, k: Key, token: nat, raises: nat -> bool)
    requires Disturbed(ops, ts, from, k, token, raises) && ops <= ops' && ts <= ts'
    ensures Disturbed(ops', ts', from, k, token, raises)
  {
    if m :| from < m <= |ops| && m < |ts| && k in ts[m].jobs && ts[m].jobs[k].status == Cancelled {
      assert ts'[m] == ts[m];
    } else if m :| from < m < |ops| && m < |ts| && RefusedBeat(ts[m], ops[m], k, token) {
      assert RefusedBeat(ts'[m], ops'[m], k, token);
    }
  }

  class ResearchWorker {
    const queue: SharedQueue
    /** Set for the rest of a turn once a heartbeat or a cancellation check fails. */
    var leaseLost: bool
    /** How many cancellation checks this turn has made; `raises` says which of them raise. */
    var looks: nat

    constructor (queue: SharedQueue)
      ensures this.queue == queue
    {
      this.queue := queue;
      leaseLost, looks := false, 0;
    }

    ghost predicate Explained(from: nat, k: Key, token: nat, raises: nat -> bool)
      reads this, queue
    {
      leaseLost ==> Disturbed(queue.ops, queue.ts, from, k, token, raises)
    }

    /** No look of this turn raised, unless the lease counts as lost. */
    predicate Quiet(raises: nat -> bool)
      reads this
    {
      leaseLost || forall i :: 0 <= i < looks ==> !raises(i)
    }

    method IsCancelled(k: Key, raises: nat -> bool, ghost from: nat, ghost token: nat) returns (stop: bool)
      requires queue.Valid() && Explained(from, k, token, raises) && from < |queue.ops| && Quiet(raises)
      modifies this
      ensures Explained(from, k, token, raises) && Quiet(raises) && looks >= old(looks)
      ensures !stop ==> !(k in queue.repository.jobs && queue.repository.jobs[k].status == Cancelled)
      ensures leaseLost ==> stop
      ensures stop ==> Disturbed(queue.ops, queue.ts, from, k, token, raises)
      ensures old(leaseLost) ==> leaseLost
    {
      if leaseLost {
        return true;
      }
      looks := looks + 1;
      if raises(looks - 1) {
        leaseLost := true;
        return true;
      }
      stop := queue.repository.IsCancelled(k);
      assert queue.ts[|queue.ops|].jobs == queue.repository.jobs;
    }

    /** The processor at work, with heartbeats at any times until one of them fails. */
    method Process(k: Key, token: nat, answer: Outcome, raises: nat -> bool, ghost from: nat) returns (outcome: Outcome)
      requires queue.Valid() && Explained(from, k, token, raises) && from < |queue.ops| && Quiet(raises)
      modifies this, queue, queue.repository
      ensures queue.Valid() && queue.Grew() && Explained(from, k, token, raises) && Quiet(raises)
      ensures outcome == answer
    {
      hide Disturbed, F.TokensDistinct;
      var beats: seq<int> := *;
      for i := 0 to |beats|
        invariant queue.Valid() && queue.Grew() && Explained(from, k, token, raises) && Quiet(raises)
      {
        Act(from, k, token, raises);
        if !leaseLost {
          Beat(k, token, beats[i], raises, from);
        }
        var _ := IsCancelled(k, raises, from, token);
      }
      Act(from, k, token, raises);
      outcome := answer;
    }

    method Beat(k: Key, token: nat, now: int, raises: nat -> bool, ghost from: nat)
      requires queue.Valid() && !leaseLost && from < |queue.ops| && Quiet(raises)
      modifies this`leaseLost, queue, queue.repository
      ensures queue.Valid() && queue.Grew() && Explained(from, k, token, raises) && Quiet(raises)
      ensures leaseLost <==> !LeaseLives(old(queue.ts)[|old(queue.ops)|].jobs, k, token, now)
    {
      var beat := queue.Heartbeat(k, token, now);
      leaseLost := beat.Failure?;
      if leaseLost {
        assert RefusedBeat(queue.ts[|old(queue.ops)|], queue.ops[|old(queue.ops)|], k, token);
      }
    }

    /** Others act while the worker waits. */
    method Act(ghost from: nat, k: Key, token: nat, raises: nat -> bool)
      requires queue.Valid() && Explained(from, k, token, raises)
      modifies queue, queue.repository
      ensures queue.Valid() && queue.Grew() && Explained(from, k, token, raises)
    {
      queue.OthersAct();
      if leaseLost {
        DisturbedStays(old(queue.ops), old(queue.ts), queue.ops, queue.ts, from, k, token, raises);
      }
    }

    /**
     One turn of the worker amid everybody else's. It draws one token by one claim, at step `claimed` of the run, and
     writes at most one outcome, at step `written`: the processor's answer, and always if nothing disturbs the turn.
     If that write is accepted, the row was the claimed one throughout, nobody else claimed the job or wrote its outcome
     in between, and the token is spent; a refused write changed nothing.
     */
    method RunOnce(workerId: string, blank: bool, now: int, locked: set<Key>, answer: Outcome, raises: nat -> bool)
      returns (r: Result<bool, WorkerError>, ghost claimed: nat, ghost written: Option<nat>, ghost k: Key)
      requires queue.Valid()
      modifies this, queue, queue.repository
      ensures queue.Valid() && queue.Grew()
      ensures claimed == |old(queue.ops)| < |queue.ops|
      ensures queue.ops[claimed] == OpClaim(workerId, blank, old(queue.nextToken), now, locked)
      ensures blank <==> r == Failure(QueueError(InvalidWorkerId)) && written.None?
      ensures r == Success(false) <==>
              !blank && forall o :: o in queue.ts[claimed].jobs && o !in locked ==>
                                      !Claimable(queue.repository.config, queue.ts[claimed].jobs, o, now)
      ensures r == Success(false) ==> written.None?
      ensures !blank && r != Success(false) ==>
                F.Grants(queue.repository.config, queue.ts[claimed], queue.ops[claimed], k, queue.ops[claimed].token)
      ensures r == Failure(ProcessorRaised) ==> answer.OtherException? && written.None?
      ensures r == Success(true) && written.None? ==>
                Disturbed(queue.ops, queue.ts, claimed, k, queue.ops[claimed].token, raises)
      ensures written.Some? ==> !leaseLost && forall i :: 0 <= i < looks ==> !raises(i)
      ensures written.Some? ==>
                && claimed < written.value < |queue.ops|
                && WritesAnswer(queue.ops[written.value], answer, k, queue.ops[claimed].token)
      ensures written.Some? && r.Success? ==>
                && r == Success(true)
                && k in queue.ts[written.value].jobs && k in queue.ts[written.value + 1].jobs
                && AnswerRow(queue.repository.config.policy, queue.ts[written.value].jobs[k],
                             queue.ts[written.value + 1].jobs[k], answer, queue.ops[written.value])
                && Undisturbed(queue.repository.config, queue.ops, queue.ts, claimed, written.value, k)
      ensures written.Some? && r.Failure? ==> queue.ts[written.value + 1] == queue.ts[written.value]
    {
      hide Claimable, AnswerRow, WritesAnswer, Disturbed, Apply, ClaimOn, Undisturbed, F.OutcomeAccepted,
        F.TokensDistinct;
      leaseLost, looks := false, 0;
      claimed, written := |queue.ops|, None;
      var token := queue.nextToken;
      var claim := queue.Claim(workerId, blank, now, locked);
      k := Key(0, 0);
      if claim.Failure? {
        return Failure(QueueError(claim.error)), claimed, None, k;
      }
      if claim.value.None? {
        return Success(false), claimed, None, k;
      }
      k := claim.value.value;
      r, written := Work(claim.value.value, token, answer, raises, claimed);
      if written.Some? && r.Success? {
        AcceptedIsUndisturbed(queue.repository.config, queue.ops, queue.ts, claimed, written.value, k);
      }
    }

    /** The turn after the claim. */
    method Work(k: Key, token: nat, answer: Outcome, raises: nat -> bool, ghost from: nat)
      returns (r: Result<bool, WorkerError>, ghost written: Option<nat>)
      requires queue.Valid() && !leaseLost && looks == 0 && from == |queue.ops| - 1
      modifies this, queue, queue.repository
      ensures queue.Valid() && queue.Grew()
      ensures r.Success? ==> r.value
      ensures r.Failure? && written.None? ==> r == Failure(ProcessorRaised)
      ensures r == Failure(ProcessorRaised) ==> answer.OtherException? && written.None?
      ensures r == Success(true) && written.None? ==> Disturbed(queue.ops, queue.ts, from, k, token, raises)
      ensures written.Some? ==> !leaseLost && forall i :: 0 <= i < looks ==> !raises(i)
      ensures written.Some? ==>
                |old(queue.ops)| <= written.value < |queue.ops|
                  && WritesAnswer(queue.ops[written.value], answer, k, token)
      ensures written.Some? && r.Success? ==>
                && F.OutcomeAccepted(queue.repository.config, queue.ts[written.value], queue.ops[written.value], k,
                     token)
                && k in queue.ts[written.value].jobs && k in queue.ts[written.value + 1].jobs
                && AnswerRow(queue.repository.config.policy, queue.ts[written.value].jobs[k],
                             queue.ts[written.value + 1].jobs[k], answer, queue.ops[written.value])
      ensures written.Some? && r.Failure? ==> queue.ts[written.value + 1] == queue.ts[written.value]
    {
      hide F.TokensDistinct, F.OutcomeAccepted, Apply, Disturbed, WritesAnswer, AnswerRow;
      Act(from, k, token, raises);
      var stop := IsCancelled(k, raises, from, token);
      if stop {
        return Success(true), None;
      }
      var outcome := Process(k, token, answer, raises, from);
      if outcome.OtherException? {
        return Failure(ProcessorRaised), None;
      }
      stop := IsCancelled(k, raises, from, token);
      if stop {
        return Success(true), None;
      }
      Act(from, k, token, raises);
      written := Some(|queue.ops|);
      var done := WriteOutcome(k, token, outcome);
      r := if done.Success? then Success(true) else Failure(QueueError(done.error));
    }

    method WriteOutcome(k: Key, token: nat, outcome: Outcome) returns (r: Result<(), JobError>)
      requires queue.Valid() && !outcome.OtherException?
      modifies queue, queue.repository
      ensures queue.Valid() && queue.Grew() && |queue.ops| == |old(queue.ops)| + 1
      ensures var op, t, t' := queue.ops[|old(queue.ops)|], old(queue.ts)[|old(queue.ops)|], queue.ts[|queue.ops|];
        && WritesAnswer(op, outcome, k, token)
        && (r.Success? <==> F.OutcomeAccepted(queue.repository.config, t, op, k, token))
        && (r.Success? ==> k in t.jobs && k in t'.jobs
                           && AnswerRow(queue.repository.config.policy, t.jobs[k], t'.jobs[k], outcome, op))
        && (r.Failure? ==> t' == t)
    {
      hide FailedRow;
      var now: int := *;
      match outcome {
        case Finished(partial) => r := queue.Complete(k, token, partial, now);
        case RetryableError(reason) => r := queue.Fail(k, token, Reason(reason, "RETRYABLE_JOB_FAILURE"), true, now);
        case TerminalError(reason) =>
          r := queue.Fail(k, token, Reason(reason, "NON_RETRYABLE_JOB_FAILURE"), false, now);
      }
    }
  }

  /** An error's own text if it fits, else the fallback: never refused for its length. */
  function Reason(text: string, fallback: string): (r: string)
    requires 0 < |fallback| <= 128
    ensures 0 < |r| <= 128 && r == (if 0 < |text| <= 128 then text else fallback)
  {
    if text != "" && |text| <= 128 then text else fallback
  }

  /** From the claim at c to the write at j: the same row but for heartbeats, and no other claim or outcome. */
  ghost predicate Undisturbed(config: Config, ops: seq<Op>, ts: seq<Table>, c: nat, j: nat, k: Key)
    requires c < j < |ops| && |ts| == |ops| + 1
  {
    && ops[c].OpClaim? && F.OutcomeAccepted(config, ts[j], ops[j], k, ops[c].token)
    && (forall m :: c < m < j ==> AloneAt(config, ops, ts, m, j, k))
    && !F.Leased(ts[j + 1], k, ops[c].token)
  }

  ghost predicate AloneAt(config: Config, ops: seq<Op>, ts: seq<Table>, m: nat, j: nat, k: Key)
    requires m < j < |ops| && |ts| == |ops| + 1
  {
    && k in ts[m].jobs && k in ts[j].jobs && F.Rest(ts[m].jobs[k]) == F.Rest(ts[j].jobs[k])
    && forall other :: !F.Grants(config, ts[m], ops[m], k, other) && !F.OutcomeAccepted(config, ts[m], ops[m], k, other)
  }

  lemma AcceptedIsUndisturbed(config: Config, ops: seq<Op>, ts: seq<Table>, c: nat, j: nat, k: Key)
    requires History(config, ops, ts) && F.TokensDistinct(ops) && c < j < |ops| && ops[c].OpClaim?
    requires F.OutcomeAccepted(config, ts[j], ops[j], k, ops[c].token)
    ensures Undisturbed(config, ops, ts, c, j, k)
  {
    hide Apply;
    forall m | c < m < j ensures AloneAt(config, ops, ts, m, j, k) {
      F.NothingInBetween(config, ops, ts, c, m, j, k, ops[c].token);
    }
    assert ts[j + 1] == Apply(config, ts[j], ops[j]);
    F.OutcomeEndsLease(config, ts[j], ops[j], k, ops[c].token);
  }
}
