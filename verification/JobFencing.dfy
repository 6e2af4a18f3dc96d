/**
 Lease fencing. Lease tokens are drawn afresh for every claim; with that alone, and for any
 interleaving and any clock values, a token stops authorizing writes for good once its claim ends.
 */
module JobFencing {
  import opened Wrappers
  import opened JobLifecycle
  import opened JobQueue
  import JobLog

  /** Every claim draws a token no other claim of the run draws. */
  predicate TokensDistinct(ops: seq<Op>) {
    forall i, j :: 0 <= i < j < |ops| && ops[i].OpClaim? && ops[j].OpClaim? ==> ops[i].token != ops[j].token
  }

  /** The job's lease columns carry this token. */
  predicate Leased(t: Table, k: Key, token: nat) {
    k in t.jobs && t.jobs[k].leaseHash == Some(LeaseHash(token))
  }

  /** The transaction is a claim that hands `token` out for `k`. */
  ghost predicate Grants(config: Config, t: Table, op: Op, k: Key, token: nat) {
    op.OpClaim? && op.token == token
      && ClaimOn(config, t, op.workerId, op.blank, token, op.now, op.locked).1 == Success(Some(k))
  }

  /** The transaction is a complete or fail under this token, and it succeeds. */
  predicate OutcomeAccepted(config: Config, t: Table, op: Op, k: Key, token: nat) {
    match op
    case OpComplete(key, tok, partial, now) =>
      key == k && tok == token && CompleteOn(t, key, tok, partial, now).1.Success?
    case OpFail(key, tok, reason, retryable, now) =>
      key == k && tok == token && FailOn(config, t, key, tok, reason, retryable, now).1.Success?
    case _ => false
  }

  /** The transaction is a heartbeat, complete or fail under this token, and it succeeds. */
  predicate Authorized(config: Config, t: Table, op: Op, k: Key, token: nat) {
    || OutcomeAccepted(config, t, op, k, token)
    || (op.OpHeartbeat? && op.key == k && op.token == token && HeartbeatOn(config, t, k, token, op.now).1.Success?)
  }

  /** A row apart from the two columns a heartbeat writes. */
  function Rest(job: Job): Job {
    job.(leaseExpires := None, updatedAt := 0)
  }

  // ---------------------------------------------------------------- one transaction

  /** A token enters a row only through the claim that drew it. */
  lemma LeaseComesFromClaim(config: Config, t: Table, op: Op, k: Key, token: nat)
    requires Leased(Apply(config, t, op), k, token)
    ensures Leased(t, k, token) || Grants(config, t, op, k, token)
  {
    if op.OpRecover? && StaleSelection(t, op.rows, op.now) && RecoverRows(config, t, op.rows, op.now).Some? {
      JobLog.RecoverRowsPointwise(config, t, op.rows, op.now, k);
    }
  }

  /** While a row keeps its token, nothing but a heartbeat writes it. */
  lemma LeasedRowKept(config: Config, t: Table, op: Op, k: Key, token: nat)
    requires Leased(t, k, token) && Leased(Apply(config, t, op), k, token)
    requires !(op.OpClaim? && op.token == token)
    ensures Rest(Apply(config, t, op).jobs[k]) == Rest(t.jobs[k])
    ensures forall other :: !Grants(config, t, op, k, other) && !OutcomeAccepted(config, t, op, k, other)
  {
    if op.OpRecover? && StaleSelection(t, op.rows, op.now) && RecoverRows(config, t, op.rows, op.now).Some? {
      JobLog.RecoverRowsPointwise(config, t, op.rows, op.now, k);
    }
  }

  lemma OutcomeEndsLease(config: Config, t: Table, op: Op, k: Key, token: nat)
    requires OutcomeAccepted(config, t, op, k, token)
    ensures Leased(t, k, token) && !Leased(Apply(config, t, op), k, token)
  {
  }

  // ---------------------------------------------------------------- whole runs

  /** Step `c` granted the token for `k`, and the row carried it at every point up to `i`. */
  ghost predicate Carried(config: Config, ops: seq<Op>, ts: seq<Table>, c: nat, i: nat, k: Key, token: nat)
    requires |ts| == |ops| + 1
  {
    && c < i <= |ops|
    && Grants(config, ts[c], ops[c], k, token)
    && forall m :: c < m <= i ==> Leased(ts[m], k, token)
  }

  /** A token found in the table was handed out by an earlier claim and carried ever since. */
  lemma {:induction false} LeaseWasGranted(config: Config, ops: seq<Op>, ts: seq<Table>, i: nat, k: Key, token: nat)
    returns (c: nat)
    requires History(config, ops, ts) && i <= |ops| && Leased(ts[i], k, token)
    ensures Carried(config, ops, ts, c, i, k, token)
  {
    assert i > 0;
    assert ts[i] == Apply(config, ts[i - 1], ops[i - 1]);
    LeaseComesFromClaim(config, ts[i - 1], ops[i - 1], k, token);
    if Leased(ts[i - 1], k, token) {
      c := LeaseWasGranted(config, ops, ts, i - 1, k, token);
    } else {
      c := i - 1;
    }
  }

  /** A token is never in two rows. */
  lemma HolderIsUnique(config: Config, ops: seq<Op>, ts: seq<Table>, i: nat, a: Key, b: Key, token: nat)
    requires History(config, ops, ts) && TokensDistinct(ops) && i <= |ops|
    requires Leased(ts[i], a, token) && Leased(ts[i], b, token)
    ensures a == b
  {
    var c := LeaseWasGranted(config, ops, ts, i, a, token);
    var d := LeaseWasGranted(config, ops, ts, i, b, token);
    assert c == d;
  }

  /**
   Fencing: if a token authorizes a write at step `j`, then from the claim that handed it out up to `j`
   the row carried that very token without interruption.
   */
  lemma AuthorizedMeansCarried(config: Config, ops: seq<Op>, ts: seq<Table>, c: nat, j: nat, k: Key, token: nat)
    requires History(config, ops, ts) && TokensDistinct(ops) && c < j < |ops|
    requires ops[c].OpClaim? && ops[c].token == token
    requires Authorized(config, ts[j], ops[j], k, token)
    ensures Carried(config, ops, ts, c, j, k, token)
  {
    var d := LeaseWasGranted(config, ops, ts, j, k, token);
    assert d == c;
  }

  /**
   So between a claim and an accepted write under its token nobody else claims the job or writes its
   outcome, and the row is the claimed row but for the two columns heartbeats move.
   */
  lemma {:induction false} NothingInBetween(
    config: Config, ops: seq<Op>, ts: seq<Table>, c: nat, m: nat, j: nat, k: Key, token: nat)
    requires History(config, ops, ts) && TokensDistinct(ops) && c < m <= j < |ops|
    requires ops[c].OpClaim? && ops[c].token == token
    requires Authorized(config, ts[j], ops[j], k, token)
    ensures k in ts[m].jobs && k in ts[j].jobs && Rest(ts[m].jobs[k]) == Rest(ts[j].jobs[k])
    ensures m < j ==> forall other ::
              !Grants(config, ts[m], ops[m], k, other) && !OutcomeAccepted(config, ts[m], ops[m], k, other)
    decreases j - m
  {
    AuthorizedMeansCarried(config, ops, ts, c, j, k, token);
    assert Leased(ts[m], k, token) && Leased(ts[j], k, token);
    if m < j {
      assert Leased(ts[m + 1], k, token) && ts[m + 1] == Apply(config, ts[m], ops[m]);
      LeasedRowKept(config, ts[m], ops[m], k, token);
      NothingInBetween(config, ops, ts, c, m + 1, j, k, token);
    }
  }

  /** One claim has at most one outcome: a token never lets two completes or fails succeed, on any rows. */
  lemma AtMostOneOutcome(config: Config, ops: seq<Op>, ts: seq<Table>, i: nat, j: nat, a: Key, b: Key, token: nat)
    requires History(config, ops, ts) && TokensDistinct(ops) && i < j < |ops|
    requires OutcomeAccepted(config, ts[i], ops[i], a, token)
    ensures !OutcomeAccepted(config, ts[j], ops[j], b, token)
  {
    if OutcomeAccepted(config, ts[j], ops[j], b, token) {
      var c := LeaseWasGranted(config, ops, ts, i, a, token);
      var d := LeaseWasGranted(config, ops, ts, j, b, token);
      assert c == d && a == b;
      assert Leased(ts[i + 1], b, token) && ts[i + 1] == Apply(config, ts[i], ops[i]);
      OutcomeEndsLease(config, ts[i], ops[i], a, token);
    }
  }

  /** Once a claim has ended, its token never authorizes a write again, whatever happens to the job. */
  lemma EndedLeaseStaysEnded(config: Config, ops: seq<Op>, ts: seq<Table>, c: nat, i: nat, j: nat, k: Key, token: nat)
    requires History(config, ops, ts) && TokensDistinct(ops) && c < i <= j < |ops|
    requires ops[c].OpClaim? && ops[c].token == token
    requires !Leased(ts[i], k, token)
    ensures !Authorized(config, ts[j], ops[j], k, token)
  {
    if Authorized(config, ts[j], ops[j], k, token) {
      AuthorizedMeansCarried(config, ops, ts, c, j, k, token);
    }
  }
}
