/**
 Claims that overlap. A claim counts its tenant's running jobs and picks a row before it takes that row, and the count
 is not locked: between the two, other claims may take rows of the same tenant.
 */
module JobOverlap {
  import opened Wrappers
  import opened JobLifecycle
  import opened JobQueue
  import opened JobLog
  import opened JobScheduling

  /** A row picked and locked, and how many rows of its tenant had been taken when the running ones were counted. */
  datatype Pick = Pick(key: Key, takesSeen: nat)

  datatype Sys = Sys(t: Table, picks: map<nat, Pick>, takes: map<Id, nat>)

  datatype Act =
    | Count(claim: nat, now: int)
    | Take(claim: nat, workerId: string, token: nat, now: int)
    | Other(op: Op)

  function TakesOf(s: Sys, tenant: Id): nat { if tenant in s.takes then s.takes[tenant] else 0 }

  function Locked(s: Sys): set<Key> { set c | c in s.picks :: s.picks[c].key }

  /** A transaction of anybody else that does not have to wait for a picked row. */
  predicate Unblocked(s: Sys, op: Op) {
    !op.OpClaim? && (op.OpRecover? || op.key !in Locked(s))
  }

  ghost function Apply(config: Config, s: Sys, a: Act): Sys {
    match a
    case Count(claim, now) =>
      var first := First(s.t.jobs, Candidates(config, s.t.jobs, now, Locked(s)));
      if claim in s.picks || first.None? then s
      else s.(picks := s.picks[claim := Pick(first.value, TakesOf(s, first.value.tenant))])
    case Take(claim, workerId, token, now) =>
      if claim !in s.picks || s.picks[claim].key !in s.t.jobs then s
      else
        var k := s.picks[claim].key;
        Sys(Store(s.t, k, ClaimedRow(config, s.t.jobs[k], token, now), JobClaimed, now, Some(workerId), None),
            s.picks - {claim}, s.takes[k.tenant := TakesOf(s, k.tenant) + 1])
    case Other(op) => if Unblocked(s, op) then s.(t := JobQueue.Apply(config, s.t, op)) else s
  }

  ghost predicate History(config: Config, acts: seq<Act>, ss: seq<Sys>) {
    && |ss| == |acts| + 1
    && ss[0] == Sys(EmptyTable, map[], map[])
    && forall i {:trigger acts[i]} :: 0 <= i < |acts| ==> ss[i + 1] == Apply(config, ss[i], acts[i])
  }

  function Running(s: Sys, tenant: Id): nat { |RunningOf(s.t.jobs, tenant)| }

  /** The act takes a row of this tenant. */
  predicate Takes(s: Sys, a: Act, tenant: Id) {
    a.Take? && a.claim in s.picks && s.picks[a.claim].key in s.t.jobs && s.picks[a.claim].key.tenant == tenant
  }

  /** No claim of the tenant took a row between this claim's count and its take. */
  predicate Alone(s: Sys, a: Act)
    requires a.Take? && a.claim in s.picks
  {
    s.picks[a.claim].takesSeen == TakesOf(s, s.picks[a.claim].key.tenant)
  }

  /** What is left of a pick's count: no more running than the limit allows but for the takes it has not seen. */
  predicate PickInv(config: Config, s: Sys, c: nat) {
    c in s.picks ==>
      var pick := s.picks[c];
      && pick.takesSeen <= TakesOf(s, pick.key.tenant)
      && Running(s, pick.key.tenant) < config.Limit(pick.key.tenant) + TakesOf(s, pick.key.tenant) - pick.takesSeen
  }

  lemma OthersOnlyFree(config: Config, t: Table, op: Op, tenant: Id)
    requires !op.OpClaim?
    ensures |RunningOf(JobQueue.Apply(config, t, op).jobs, tenant)| <= |RunningOf(t.jobs, tenant)|
  {
    RunningAfter(config, t, op, tenant);
    hide JobQueue.Apply, RunningOf;
    SubsetCardinality(RunningOf(JobQueue.Apply(config, t, op).jobs, tenant), RunningOf(t.jobs, tenant));
  }

  lemma TakeAddsOne(config: Config, s: Sys, a: Act, tenant: Id)
    requires a.Take?
    ensures Running(Apply(config, s, a), tenant) <= Running(s, tenant) + if Takes(s, a, tenant) then 1 else 0
    ensures TakesOf(Apply(config, s, a), tenant) == TakesOf(s, tenant) + if Takes(s, a, tenant) then 1 else 0
  {
    var s' := Apply(config, s, a);
    if a.claim in s.picks && s.picks[a.claim].key in s.t.jobs {
      var k := s.picks[a.claim].key;
      var before, after := RunningOf(s.t.jobs, tenant), RunningOf(s'.t.jobs, tenant);
      if k.tenant == tenant {
        SubsetCardinality(after, before + {k});
      } else {
        assert after == before;
      }
    }
  }

  lemma StepKeeps(config: Config, s: Sys, a: Act, c: nat)
    requires PickInv(config, s, c)
    ensures PickInv(config, Apply(config, s, a), c)
  {
    match a
    case Count(claim, now) => CountKeeps(config, s, claim, now, c);
    case Take(_, _, _, _) =>
      if c in s.picks {
        TakeAddsOne(config, s, a, s.picks[c].key.tenant);
      }
    case Other(op) =>
      if c in s.picks && Unblocked(s, op) {
        OthersOnlyFree(config, s.t, op, s.picks[c].key.tenant);
      }
  }

  lemma CountKeeps(config: Config, s: Sys, claim: nat, now: int, c: nat)
    requires PickInv(config, s, c)
    ensures PickInv(config, Apply(config, s, Count(claim, now)), c)
  {
    var candidates := Candidates(config, s.t.jobs, now, Locked(s));
    if claim !in s.picks && First(s.t.jobs, candidates).Some? {
      assert IsFirst(s.t.jobs, candidates, First(s.t.jobs, candidates).value);
    }
  }

  lemma {:induction false} RunKeepsPicks(config: Config, acts: seq<Act>, ss: seq<Sys>, i: nat, c: nat)
    requires History(config, acts, ss) && i <= |acts|
    ensures PickInv(config, ss[i], c)
  {
    hide Apply;
    if i > 0 {
      RunKeepsPicks(config, acts, ss, i - 1, c);
      assert ss[i] == Apply(config, ss[i - 1], acts[i - 1]);
      StepKeeps(config, ss[i - 1], acts[i - 1], c);
    }
  }

  /** A take leaves its tenant above the limit by at most the number of takes between its own count and itself. */
  lemma TakeOvershootsBy(config: Config, acts: seq<Act>, ss: seq<Sys>, i: nat, tenant: Id)
    requires History(config, acts, ss) && i < |acts| && Takes(ss[i], acts[i], tenant)
    ensures Running(ss[i + 1], tenant) <= config.Limit(tenant)
            + TakesOf(ss[i], tenant) - ss[i].picks[acts[i].claim].takesSeen
  {
    RunKeepsPicks(config, acts, ss, i, acts[i].claim);
    assert ss[i + 1] == Apply(config, ss[i], acts[i]);
    TakeAddsOne(config, ss[i], acts[i], tenant);
  }

  lemma CapStep(config: Config, s: Sys, a: Act, tenant: Id)
    requires !Takes(s, a, tenant)
    ensures Running(Apply(config, s, a), tenant) <= Running(s, tenant)
  {
    match a
    case Count(_, _) =>
    case Take(_, _, _, _) => TakeAddsOne(config, s, a, tenant);
    case Other(op) =>
      if Unblocked(s, op) {
        OthersOnlyFree(config, s.t, op, tenant);
      }
  }

  /** With every claim of the tenant alone between its count and its take, the cap holds at every point of every run. */
  lemma {:induction false} CapWhenAlone(config: Config, acts: seq<Act>, ss: seq<Sys>, i: nat, tenant: Id)
    requires History(config, acts, ss) && i <= |acts| && config.Limit(tenant) >= 0
    requires forall j :: 0 <= j < i && Takes(ss[j], acts[j], tenant) ==> Alone(ss[j], acts[j])
    ensures Running(ss[i], tenant) <= config.Limit(tenant)
  {
    hide Apply;
    if i == 0 {
      assert RunningOf(ss[0].t.jobs, tenant) == {};
    } else {
      CapWhenAlone(config, acts, ss, i - 1, tenant);
      assert ss[i] == Apply(config, ss[i - 1], acts[i - 1]);
      if Takes(ss[i - 1], acts[i - 1], tenant) {
        TakeOvershootsBy(config, acts, ss, i - 1, tenant);
      } else {
        CapStep(config, ss[i - 1], acts[i - 1], tenant);
      }
    }
  }

  // ---------------------------------------------------------------- runs that break the cap

  function Waiter(run: Id): Job {
    Job(run, 0, 0, Queued, 0, 0, run, 0, None, None, None)
  }

  /** Enough waiting jobs of one tenant. */
  function Submitted(tenant: Id, total: nat): seq<Act> {
    if total == 0 then []
    else Submitted(tenant, total - 1) + [Other(OpEnqueue(tenant, Key(tenant, total), Waiter(total)))]
  }

  /** Claims that count and take one after the other. */
  function Turns(before: seq<Act>, n: nat): seq<Act> {
    if n == 0 then before else Turns(before, n - 1) + [Count(n, 0)] + [Take(n, "w", n, 0)]
  }

  function Counts(before: seq<Act>, from: nat, n: nat): seq<Act> {
    if n == 0 then before else Counts(before, from, n - 1) + [Count(from + n, 0)]
  }

  function TakesAll(before: seq<Act>, from: nat, n: nat): seq<Act> {
    if n == 0 then before else TakesAll(before, from, n - 1) + [Take(from + n, "w", from + n, 0)]
  }

  /** Some claims take a job each, one at a time; then `n` more all count before any of them takes. */
  function Crowd(tenant: Id, alone: nat, n: nat): seq<Act> {
    TakesAll(Counts(Turns(Submitted(tenant, alone + n), alone), alone, n), alone, n)
  }

  ghost function After(config: Config, acts: seq<Act>): Sys {
    if acts == [] then Sys(EmptyTable, map[], map[])
    else Apply(config, After(config, acts[..|acts| - 1]), acts[|acts| - 1])
  }

  ghost function States(config: Config, acts: seq<Act>): seq<Sys> {
    seq(|acts| + 1, i requires 0 <= i <= |acts| => After(config, acts[..i]))
  }

  lemma StatesAreHistory(config: Config, acts: seq<Act>)
    ensures History(config, acts, States(config, acts))
  {
    hide Apply;
    forall i | 0 <= i < |acts| ensures States(config, acts)[i + 1] == Apply(config, States(config, acts)[i], acts[i]) {
      assert acts[..i + 1][..i] == acts[..i];
    }
  }

  lemma AfterOneMore(config: Config, acts: seq<Act>, a: Act)
    ensures After(config, acts + [a]) == Apply(config, After(config, acts), a)
  {
    hide Apply;
    assert (acts + [a])[..|acts|] == acts;
  }

  /** The rows of the tenant are numbered from one; the first ones run and the others wait. */
  ghost predicate Rows(t: Table, tenant: Id, total: nat, taken: nat) {
    && (forall run <- t.byRun.Keys :: run.1 <= total)
    && (forall k: Key :: k in t.jobs <==> k.tenant == tenant && 1 <= k.jobId <= total)
    && (forall k <- t.jobs.Keys :: if k.jobId <= taken then t.jobs[k].status.Running? else t.jobs[k] == Waiter(k.jobId))
  }

  /** The rows after the taken ones are picked, each by the claim of its number, which saw `seen` takes. */
  ghost predicate Picks(picks: map<nat, Pick>, tenant: Id, taken: nat, picked: nat, seen: nat) {
    && (forall c: nat :: c in picks <==> taken < c <= picked)
    && (forall c <- picks.Keys :: picks[c] == Pick(Key(tenant, c), seen))
  }

  ghost predicate Crowded(s: Sys, tenant: Id, total: nat, taken: nat, picked: nat, seen: nat) {
    && taken <= picked <= total && TakesOf(s, tenant) == taken
    && Rows(s.t, tenant, total, taken) && Picks(s.picks, tenant, taken, picked, seen)
  }

  function KeysTo(tenant: Id, n: nat): set<Key> {
    set c | 1 <= c <= n :: Key(tenant, c)
  }

  lemma {:induction false} CountKeys(tenant: Id, n: nat)
    ensures |KeysTo(tenant, n)| == n
  {
    if n > 0 {
      CountKeys(tenant, n - 1);
      assert KeysTo(tenant, n) == KeysTo(tenant, n - 1) + {Key(tenant, n)};
    }
  }

  lemma TakenAreRunning(s: Sys, tenant: Id, total: nat, taken: nat, picked: nat, seen: nat)
    requires Crowded(s, tenant, total, taken, picked, seen)
    ensures Running(s, tenant) == taken
  {
    assert RunningOf(s.t.jobs, tenant) == KeysTo(tenant, taken);
    CountKeys(tenant, taken);
  }

  lemma SubmitStep(config: Config, s: Sys, tenant: Id, total: nat)
    requires Crowded(s, tenant, total, 0, 0, 0)
    ensures var a := Other(OpEnqueue(tenant, Key(tenant, total + 1), Waiter(total + 1)));
      Crowded(Apply(config, s, a), tenant, total + 1, 0, 0, 0)
  {
    assert (tenant, total + 1) !in s.t.byRun && Key(tenant, total + 1) !in s.t.jobs && Locked(s) == {};
    EnqueueEffect(config, s, tenant, Key(tenant, total + 1), Waiter(total + 1));
    hide Apply, Locked, Waiter, Picks;
  }

  lemma EnqueueEffect(config: Config, s: Sys, tenant: Id, k: Key, job: Job)
    requires Locked(s) == {} && k !in s.t.jobs && k.tenant == tenant && (tenant, job.runId) !in s.t.byRun
    requires job.status.Queued? && job.leaseHash.None? && job.leaseExpires.None? && job.lastError.None?
    ensures var s' := Apply(config, s, Other(OpEnqueue(tenant, k, job)));
      && s'.t.jobs == s.t.jobs[k := job] && s'.t.byRun == s.t.byRun[(tenant, job.runId) := k]
      && s'.picks == s.picks && s'.takes == s.takes
  {
    hide AppendEvent, EventsOf;
  }

  lemma FirstIs(jobs: map<Key, Job>, among: set<Key>, k: Key)
    requires IsFirst(jobs, among, k)
    ensures First(jobs, among) == Some(k)
  {
    FirstIsUnique(jobs, among, k, First(jobs, among).value);
  }

  /** A claim picks the next waiting row. */
  lemma CountStep(config: Config, s: Sys, tenant: Id, total: nat, taken: nat, picked: nat, seen: nat)
    requires Crowded(s, tenant, total, taken, picked, seen) && picked < total && taken < config.Limit(tenant)
    requires seen == taken || picked == taken
    ensures Crowded(Apply(config, s, Count(picked + 1, 0)), tenant, total, taken, picked + 1, taken)
  {
    NextWaiting(config, s, tenant, total, taken, picked, seen);
    CountPicks(s.picks, tenant, taken, picked, seen);
    CountEffect(config, s, picked + 1, Key(tenant, picked + 1)) by { hide Apply, Rows, IsFirst, Candidates, Locked; }
    hide Apply, Candidates, IsFirst, Rows, Picks, Locked;
  }

  lemma CountPicks(picks: map<nat, Pick>, tenant: Id, taken: nat, picked: nat, seen: nat)
    requires Picks(picks, tenant, taken, picked, seen) && taken <= picked && (seen == taken || picked == taken)
    ensures Picks(picks[picked + 1 := Pick(Key(tenant, picked + 1), taken)], tenant, taken, picked + 1, taken)
  {
  }

  lemma CountEffect(config: Config, s: Sys, claim: nat, k: Key)
    requires claim !in s.picks && IsFirst(s.t.jobs, Candidates(config, s.t.jobs, 0, Locked(s)), k)
    ensures Apply(config, s, Count(claim, 0)) == s.(picks := s.picks[claim := Pick(k, TakesOf(s, k.tenant))])
  {
    hide Candidates, IsFirst, TakesOf;
    FirstIs(s.t.jobs, Candidates(config, s.t.jobs, 0, Locked(s)), k);
  }

  lemma NextWaiting(config: Config, s: Sys, tenant: Id, total: nat, taken: nat, picked: nat, seen: nat)
    requires Crowded(s, tenant, total, taken, picked, seen) && picked < total && taken < config.Limit(tenant)
    ensures IsFirst(s.t.jobs, Candidates(config, s.t.jobs, 0, Locked(s)), Key(tenant, picked + 1))
  {
    TakenAreRunning(s, tenant, total, taken, picked, seen);
    LockedRows(s, tenant, total, taken, picked, seen);
    hide RunningOf, Locked, Picks;
  }

  lemma LockedRows(s: Sys, tenant: Id, total: nat, taken: nat, picked: nat, seen: nat)
    requires Crowded(s, tenant, total, taken, picked, seen)
    ensures forall k :: k in Locked(s) <==> k.tenant == tenant && taken < k.jobId <= picked
  {
    forall k: Key | k.tenant == tenant && taken < k.jobId <= picked ensures k in Locked(s) {
      assert s.picks[k.jobId].key == k;
    }
  }

  lemma TakeStep(config: Config, s: Sys, tenant: Id, total: nat, taken: nat, picked: nat, seen: nat)
    requires Crowded(s, tenant, total, taken, picked, seen) && taken < picked
    ensures var a := Take(taken + 1, "w", taken + 1, 0);
      && Takes(s, a, tenant) && s.picks[taken + 1].takesSeen == seen
      && Crowded(Apply(config, s, a), tenant, total, taken + 1, picked, seen)
  {
    hide Apply;
    assert taken + 1 in s.picks && s.picks[taken + 1].key == Key(tenant, taken + 1) by { hide Rows; }
    assert Key(tenant, taken + 1) in s.t.jobs by { hide Picks; }
    TakeEffect(config, s, taken + 1, "w", taken + 1, 0);
    TakeRows(s.t, Apply(config, s, Take(taken + 1, "w", taken + 1, 0)).t, tenant, total, taken);
    TakePicks(s.picks, tenant, taken, picked, seen);
    hide Rows, Picks;
  }

  lemma TakePicks(picks: map<nat, Pick>, tenant: Id, taken: nat, picked: nat, seen: nat)
    requires Picks(picks, tenant, taken, picked, seen)
    ensures Picks(picks - {taken + 1}, tenant, taken + 1, picked, seen)
  {
  }

  lemma TakeRows(t: Table, t': Table, tenant: Id, total: nat, taken: nat)
    requires Rows(t, tenant, total, taken) && taken < total && t'.byRun == t.byRun
    requires exists job: Job :: job.status.Running? && t'.jobs == t.jobs[Key(tenant, taken + 1) := job]
    ensures Rows(t', tenant, total, taken + 1)
  {
  }

  lemma TakeEffect(config: Config, s: Sys, claim: nat, workerId: string, token: nat, now: int)
    requires claim in s.picks && s.picks[claim].key in s.t.jobs
    ensures var k, s' := s.picks[claim].key, Apply(config, s, Take(claim, workerId, token, now));
      && s'.t.jobs == s.t.jobs[k := ClaimedRow(config, s.t.jobs[k], token, now)] && s'.t.byRun == s.t.byRun
      && ClaimedRow(config, s.t.jobs[k], token, now).status.Running?
      && s'.picks == s.picks - {claim} && s'.takes == s.takes[k.tenant := TakesOf(s, k.tenant) + 1]
  {
    hide AppendEvent, EventsOf;
  }

  lemma EmptyCrowd(tenant: Id)
    ensures Crowded(Sys(EmptyTable, map[], map[]), tenant, 0, 0, 0, 0)
  {
  }

  lemma {:induction false} SubmittedCrowd(config: Config, tenant: Id, total: nat)
    ensures Crowded(After(config, Submitted(tenant, total)), tenant, total, 0, 0, 0)
  {
    hide Apply, Crowded, Waiter;
    if total == 0 {
      EmptyCrowd(tenant);
    } else {
      hide After;
      SubmittedCrowd(config, tenant, total - 1);
      SubmitStep(config, After(config, Submitted(tenant, total - 1)), tenant, total - 1);
      AfterOneMore(config, Submitted(tenant, total - 1), Other(OpEnqueue(tenant, Key(tenant, total), Waiter(total))));
    }
  }

  lemma {:induction false} TurnsCrowd(config: Config, before: seq<Act>, tenant: Id, total: nat, n: nat)
    requires Crowded(After(config, before), tenant, total, 0, 0, 0) && n <= total && n <= config.Limit(tenant)
    ensures exists seen :: Crowded(After(config, Turns(before, n)), tenant, total, n, n, seen)
  {
    hide Apply, Crowded, After;
    if n == 0 {
      assert Crowded(After(config, Turns(before, n)), tenant, total, n, n, 0);
    } else {
      TurnsCrowd(config, before, tenant, total, n - 1);
      var sofar := Turns(before, n - 1);
      var seen :| Crowded(After(config, sofar), tenant, total, n - 1, n - 1, seen);
      CountStep(config, After(config, sofar), tenant, total, n - 1, n - 1, seen);
      AfterOneMore(config, sofar, Count(n, 0));
      TakeStep(config, After(config, sofar + [Count(n, 0)]), tenant, total, n - 1, n, n - 1);
      AfterOneMore(config, sofar + [Count(n, 0)], Take(n, "w", n, 0));
      assert Crowded(After(config, Turns(before, n)), tenant, total, n, n, n - 1);
    }
  }

  lemma {:induction false} CountsCrowd(
    config: Config, before: seq<Act>, tenant: Id, total: nat, taken: nat, n: nat, seen: nat)
    requires Crowded(After(config, before), tenant, total, taken, taken, seen)
    requires 0 < n <= total - taken && taken < config.Limit(tenant)
    ensures Crowded(After(config, Counts(before, taken, n)), tenant, total, taken, taken + n, taken)
  {
    hide Apply, Crowded, After;
    var sofar := Counts(before, taken, n - 1);
    if n > 1 {
      CountsCrowd(config, before, tenant, total, taken, n - 1, seen);
    }
    CountStep(config, After(config, sofar), tenant, total, taken, taken + n - 1, if n > 1 then taken else seen);
    AfterOneMore(config, sofar, Count(taken + n, 0));
  }

  lemma {:induction false} TakesCrowd(
    config: Config, before: seq<Act>, tenant: Id, total: nat, taken: nat, picked: nat, n: nat, seen: nat)
    requires Crowded(After(config, before), tenant, total, taken, picked, seen) && n <= picked - taken
    ensures Crowded(After(config, TakesAll(before, taken, n)), tenant, total, taken + n, picked, seen)
  {
    hide Apply, Crowded, After;
    if n > 0 {
      TakesCrowd(config, before, tenant, total, taken, picked, n - 1, seen);
      var sofar := TakesAll(before, taken, n - 1);
      TakeStep(config, After(config, sofar), tenant, total, taken + n - 1, picked, seen);
      AfterOneMore(config, sofar, Take(taken + n, "w", taken + n, 0));
    }
  }

  /** Before its last take the crowd has all but one of its rows running, and that take counted before `n` others. */
  lemma CrowdBeforeLast(config: Config, tenant: Id, n: nat)
    requires config.Limit(tenant) >= 1
    ensures var alone := config.Limit(tenant) - 1;
      var counted := Counts(Turns(Submitted(tenant, alone + n + 1), alone), alone, n + 1);
      Crowded(After(config, TakesAll(counted, alone, n)), tenant, alone + n + 1, alone + n, alone + n + 1, alone)
  {
    hide Apply, Crowded, After;
    var alone := config.Limit(tenant) - 1;
    var total := alone + n + 1;
    SubmittedCrowd(config, tenant, total);
    TurnsCrowd(config, Submitted(tenant, total), tenant, total, alone);
    var turns := Turns(Submitted(tenant, total), alone);
    var seen :| Crowded(After(config, turns), tenant, total, alone, alone, seen);
    CountsCrowd(config, turns, tenant, total, alone, n + 1, seen);
    TakesCrowd(config, Counts(turns, alone, n + 1), tenant, total, alone, total, n, alone);
  }

  /**
   The bound of a take's overshoot is attained: for every limit and every number of takes that a claim does not see, a
   run of the queue in which its take leaves exactly that many more running than the limit.
   */
  lemma OvershootAttained(config: Config, tenant: Id, n: nat)
    requires config.Limit(tenant) >= 1
    ensures var acts := Crowd(tenant, config.Limit(tenant) - 1, n + 1);
      var ss, last := States(config, acts), |acts| - 1;
      && History(config, acts, ss) && last >= 0 && Takes(ss[last], acts[last], tenant)
      && TakesOf(ss[last], tenant) - ss[last].picks[acts[last].claim].takesSeen == n
      && Running(ss[last + 1], tenant) == config.Limit(tenant) + n
  {
    hide Apply, Crowded, After, Running, History, Counts, Turns, Submitted;
    var alone := config.Limit(tenant) - 1;
    var acts, total := Crowd(tenant, alone, n + 1), alone + n + 1;
    StatesAreHistory(config, acts);
    CrowdBeforeLast(config, tenant, n);
    var before := TakesAll(Counts(Turns(Submitted(tenant, total), alone), alone, n + 1), alone, n);
    LastTake(config, before, tenant, total, alone);
    assert acts == before + [Take(total, "w", total, 0)];
    assert acts[..|acts|] == acts && acts[..|acts| - 1] == before;
  }

  lemma LastTake(config: Config, before: seq<Act>, tenant: Id, total: nat, seen: nat)
    requires total > 0 && Crowded(After(config, before), tenant, total, total - 1, total, seen)
    ensures var s, a := After(config, before), Take(total, "w", total, 0);
      && Takes(s, a, tenant) && s.picks[total].takesSeen == seen && TakesOf(s, tenant) == total - 1
      && Running(After(config, before + [a]), tenant) == total
  {
    hide Apply, After, Running;
    TakeStep(config, After(config, before), tenant, total, total - 1, total, seen);
    AfterOneMore(config, before, Take(total, "w", total, 0));
    TakenAreRunning(After(config, before + [Take(total, "w", total, 0)]), tenant, total, total, total, seen);
  }

  /** With a limit of one, two claims whose counts come before either take leave two jobs running. */
  lemma OverlapBreaksCap(config: Config, tenant: Id)
    requires config.Limit(tenant) == 1
    ensures var acts := Crowd(tenant, 0, 2);
      var ss := States(config, acts);
      && acts == [Other(OpEnqueue(tenant, Key(tenant, 1), Waiter(1))),
           Other(OpEnqueue(tenant, Key(tenant, 2), Waiter(2))),
                  Count(1, 0), Count(2, 0), Take(1, "w", 1, 0), Take(2, "w", 2, 0)]
      && History(config, acts, ss)
      && Takes(ss[5], acts[5], tenant) && !Alone(ss[5], acts[5]) && Running(ss[6], tenant) == 2
  {
    hide States, Running, History, Crowd, Waiter, TakesOf;
    OvershootAttained(config, tenant, 1);
    TwoAtOnce(tenant);
    assert Crowd(tenant, 0, 2)[5] == Take(2, "w", 2, 0);
  }

  lemma TwoAtOnce(tenant: Id)
    ensures Crowd(tenant, 0, 2) ==
      [Other(OpEnqueue(tenant, Key(tenant, 1), Waiter(1))), Other(OpEnqueue(tenant, Key(tenant, 2), Waiter(2))),
       Count(1, 0), Count(2, 0), Take(1, "w", 1, 0), Take(2, "w", 2, 0)]
  {
    hide Waiter;
    var submitted := Submitted(tenant, 2);
    assert submitted == Submitted(tenant, 0) + [Other(OpEnqueue(tenant, Key(tenant, 1), Waiter(1)))]
                        + [Other(OpEnqueue(tenant, Key(tenant, 2), Waiter(2)))] by {
      assert Submitted(tenant, 1) == Submitted(tenant, 0) + [Other(OpEnqueue(tenant, Key(tenant, 1), Waiter(1)))];
    }
    hide Submitted;
    var counted := Counts(submitted, 0, 2);
    assert counted == submitted + [Count(1, 0)] + [Count(2, 0)] by {
      assert Counts(submitted, 0, 1) == submitted + [Count(1, 0)];
    }
    hide Counts;
    assert TakesAll(counted, 0, 1) == counted + [Take(1, "w", 1, 0)];
  }
}
