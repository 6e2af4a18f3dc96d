/**
 The tool service: the reservation, work, close bracket of every research mutation, what raises outside it, and any
 number of callers at once.
 */
module McpService {
  import opened Wrappers
  import opened Idempotency
  import opened McpStart
  import opened McpResponse
  import RC = RunCodec

  /** What the bracketed work may do; `Interrupted` is a cancelled task or another exit no handler here catches. */
  datatype Work = Raised | Ran(run: RC.Value, response: Response) | Interrupted

  /** The decision file a start names, as far as the start looks at it. */
  datatype Decision = Decision(draft: bool, claims: seq<string>)

  datatype McpError =
    | InvalidInput | NotFound | NotDraft | ClaimNotFound | Conflict(error: ReserveError)
    | ContractRaised(reason: ContractError) | OperationFailed | ResponseRaised | WorkInterrupted | CompletionFailed

  /** The checks a start makes before it reserves anything. */
  function Precheck(i: StartInput, decision: Option<Decision>): Option<McpError> {
    if !Accepted(i) then Some(InvalidInput)
    else if decision.None? then Some(NotFound)
    else if !decision.value.draft then Some(NotDraft)
    else if exists k :: 0 <= k < |i.claimRefs| && i.claimRefs[k] !in decision.value.claims then Some(ClaimNotFound)
    else None
  }

  /** The bracket closes the reservation exactly after these. */
  predicate Closes(w: Work) {
    w.Raised? || (w.Ran? && ResponseFits(w.run))
  }

  /** What a call answers when its key is taken. */
  function Taken(t: Entries, key: Key, hash: Hash): Result<Response, McpError>
    requires key in t
  {
    if t[key].hash != hash then Failure(Conflict(KeyReused))
    else if t[key].Open() then Failure(Conflict(InProgress))
    else Success(t[key].response)
  }

  /** The start may go on: the input is accepted, its decision is a draft and has all its claims. */
  predicate Passes(i: StartInput, decision: Option<Decision>) {
    && Accepted(i) && decision.Some? && decision.value.draft
    && forall c :: c in i.claimRefs ==> c in decision.value.claims
  }

  lemma PassesExactly(i: StartInput, decision: Option<Decision>)
    ensures Precheck(i, decision) == None <==> Passes(i, decision)
    ensures Accepted(i) && decision.Some? && decision.value.draft
            && (exists c :: c in i.claimRefs && c !in decision.value.claims) ==>
              Precheck(i, decision) == Some(ClaimNotFound)
  {
    hide Accepted;
    if exists k :: 0 <= k < |i.claimRefs| && decision.Some? && i.claimRefs[k] !in decision.value.claims {
      var k :| 0 <= k < |i.claimRefs| && decision.Some? && i.claimRefs[k] !in decision.value.claims;
      assert i.claimRefs[k] in i.claimRefs;
    }
  }

  /**
   On a free key: a malformed input raises and leaves the key reserved; a raise of the work gives it back; a response
   is answered and kept under the key with code 200; any other end leaves the key reserved.
   */
  predicate Worked(
    before: Entries, after: Entries, key: Key, hash: Hash, i: StartInput, work: Work, r: Result<Response, McpError>)
  {
    if Malformed(i) then
      r.Failure? && r.error.ContractRaised? && after == before[key := Entry(hash, 102, IN_PROGRESS_RESPONSE)]
    else
      match work
      case Raised => r == Failure(OperationFailed) && after == before
      case Ran(run, response) =>
        if ResponseFits(run) then r == Success(response) && after == before[key := Entry(hash, 200, response)]
        else r == Failure(ResponseRaised) && after == before[key := Entry(hash, 102, IN_PROGRESS_RESPONSE)]
      case Interrupted =>
        r == Failure(WorkInterrupted) && after == before[key := Entry(hash, 102, IN_PROGRESS_RESPONSE)]
  }

  class McpResearchService {
    const repository: IdempotencyRepository
    const policy: ServerPolicy

    constructor (repository: IdempotencyRepository, policy: ServerPolicy)
      ensures this.repository == repository && this.policy == policy
    {
      this.repository, this.policy := repository, policy;
    }

    /** After the reservation: release on a raise, complete on a response, and nothing when something else gets out. */
    method WorkAndClose(key: Key, hash: Hash, work: Work) returns (r: Result<Response, McpError>)
      requires Matches(repository.entries, key, hash)
      modifies repository
      ensures work.Raised? ==> r == Failure(OperationFailed) && repository.entries == old(repository.entries) - {key}
      ensures work.Ran? && ResponseFits(work.run) ==>
                && r == Success(work.response)
                && repository.entries == old(repository.entries)[key := Entry(hash, 200, work.response)]
      ensures !Closes(work) ==> r.Failure? && repository.entries == old(repository.entries)
      ensures !Closes(work) ==> r == Failure(if work.Interrupted? then WorkInterrupted else ResponseRaised)
    {
      if work.Interrupted? {
        return Failure(WorkInterrupted);
      }
      if work.Raised? {
        repository.Release(key, hash);
        return Failure(OperationFailed);
      }
      if !ResponseFits(work.run) {
        return Failure(ResponseRaised);
      }
      var completed := repository.Complete(key, hash, 200, work.response);
      if !completed {
        return Failure(CompletionFailed);
      }
      return Success(work.response);
    }

    /**
     One retry, cancel or handoff with nobody else at work. The work runs exactly when the key is free; a raise then
     leaves the table as it was, a response leaves exactly itself, and completing never fails.
     */
    method Mutate(key: Key, hash: Hash, found: bool, work: Work) returns (r: Result<Response, McpError>)
      modifies repository
      ensures !found || key in old(repository.entries) ==> repository.entries == old(repository.entries)
      ensures !found ==> r == Failure(NotFound)
      ensures found && key in old(repository.entries) ==> r == Taken(old(repository.entries), key, hash)
      ensures found && key !in old(repository.entries) && work.Raised? ==>
                r == Failure(OperationFailed) && repository.entries == old(repository.entries)
      ensures found && key !in old(repository.entries) && work.Ran? && ResponseFits(work.run) ==>
                && r == Success(work.response)
                && repository.entries == old(repository.entries)[key := Entry(hash, 200, work.response)]
      ensures found && key !in old(repository.entries) && !Closes(work) ==>
                && r.Failure?
                && repository.entries == old(repository.entries)[key := Entry(hash, IN_PROGRESS, IN_PROGRESS_RESPONSE)]
    {
      if !found {
        return Failure(NotFound);
      }
      var reserved := repository.Reserve(key, hash);
      if reserved.Failure? {
        return Failure(Conflict(reserved.error));
      }
      if reserved.value.Some? {
        return Success(reserved.value.value.1);
      }
      r := WorkAndClose(key, hash, work);
      assert key !in old(repository.entries) ==>
        old(repository.entries)[key := Entry(hash, IN_PROGRESS, IN_PROGRESS_RESPONSE)] - {key} ==
        old(repository.entries);
    }

    /** One start with nobody else at work. A malformed input that gets past the checks leaves its key reserved. */
    method Start(key: Key, hash: Hash, input: StartInput, decision: Option<Decision>, work: Work)
      returns (r: Result<Response, McpError>)
      requires policy.Valid()
      modifies repository
      ensures Precheck(input, decision).Some? ==>
                r == Failure(Precheck(input, decision).value) && repository.entries == old(repository.entries)
      ensures Precheck(input, decision).None? && key in old(repository.entries) ==>
                r == Taken(old(repository.entries), key, hash) && repository.entries == old(repository.entries)
      ensures Precheck(input, decision).None? && key !in old(repository.entries) ==>
                (Matches(repository.entries, key, hash) <==> Malformed(input) || !Closes(work))
      ensures Precheck(input, decision).None? && key !in old(repository.entries) && !Malformed(input) ==>
                (r.Success? <==> work.Ran? && ResponseFits(work.run))
      ensures repository.entries - {key} == old(repository.entries) - {key}
      ensures !Accepted(input) ==> r == Failure(InvalidInput)
      ensures Accepted(input) && decision == None ==> r == Failure(NotFound)
      ensures Accepted(input) && decision.Some? && !decision.value.draft ==> r == Failure(NotDraft)
      ensures Accepted(input) && decision.Some? && decision.value.draft
              && (exists c :: c in input.claimRefs && c !in decision.value.claims) ==>
                r == Failure(ClaimNotFound)
      ensures !Passes(input, decision) ==> repository.entries == old(repository.entries)
      ensures Passes(input, decision) && key in old(repository.entries) ==>
                var row := old(repository.entries)[key];
                && repository.entries == old(repository.entries)
                && r == if row.hash != hash then Failure(Conflict(KeyReused))
                        else if row.code == 102 then Failure(Conflict(InProgress))
                        else Success(row.response)
      ensures Passes(input, decision) && key !in old(repository.entries) ==>
                Worked(old(repository.entries), repository.entries, key, hash, input, work, r)
    {
      PassesExactly(input, decision);
      hide Accepted, Passes, ResponseFits;
      var refused := Precheck(input, decision);
      if refused.Some? {
        return Failure(refused.value);
      }
      var reserved := repository.Reserve(key, hash);
      if reserved.Failure? {
        return Failure(Conflict(reserved.error));
      }
      if reserved.value.Some? {
        return Success(reserved.value.value.1);
      }
      RefusedExactly(policy, input);
      var raised := ContractCheck(policy, input);
      if raised.Some? {
        return Failure(ContractRaised(raised.value));
      }
      r := WorkAndClose(key, hash, work);
      assert old(repository.entries)[key := Entry(hash, IN_PROGRESS, IN_PROGRESS_RESPONSE)] - {key} ==
        old(repository.entries);
    }
  }

  // ---------------------------------------------------------------- many callers at once

  /** A caller at work in its bracket, or one that got out of it without closing its reservation. */
  datatype Caller = Working(key: Key, hash: Hash) | Gone(key: Key, hash: Hash)

  datatype Sys = Sys(entries: Entries, callers: map<nat, Caller>)

  /** Caller ids are never used twice. A start checks, reserves and builds its request, or raises there. */
  datatype Act =
    | Start(caller: nat, key: Key, hash: Hash, input: StartInput, decision: Option<Decision>)
    | Mutate(caller: nat, key: Key, hash: Hash, found: bool)
    | End(caller: nat, work: Work)

  /** The act makes the key its caller's. */
  predicate Reserves(s: Sys, a: Act, key: Key) {
    && !a.End? && a.key == key && a.caller !in s.callers && key !in s.entries
    && (a.Start? ==> Precheck(a.input, a.decision).None?)
    && (a.Mutate? ==> a.found)
  }

  function Apply(p: ServerPolicy, s: Sys, a: Act): Sys {
    match a
    case Start(caller, key, hash, input, decision) =>
      if !Reserves(s, a, key) then s
      else
        Sys(ReserveOn(s.entries, key, hash).0,
            s.callers[caller := if ContractCheck(p, input).Some? then Gone(key, hash) else Working(key, hash)])
    case Mutate(caller, key, hash, found) =>
      if !Reserves(s, a, key) then s
        else Sys(ReserveOn(s.entries, key, hash).0, s.callers[caller := Working(key, hash)])
    case End(caller, work) =>
      if caller !in s.callers || s.callers[caller].Gone? then s
      else
        var w := s.callers[caller];
        if work.Raised? then Sys(ReleaseOn(s.entries, w.key, w.hash), s.callers - {caller})
        else if Closes(work) then Sys(CompleteOn(s.entries, w.key, w.hash, 200, work.response).0, s.callers - {caller})
        else s.(callers := s.callers[caller := Gone(w.key, w.hash)])
  }

  ghost predicate History(p: ServerPolicy, acts: seq<Act>, ss: seq<Sys>) {
    && p.Valid()
    && |ss| == |acts| + 1
    && ss[0] == Sys(map[], map[])
    && forall i {:trigger acts[i]} :: 0 <= i < |acts| ==> ss[i + 1] == Apply(p, ss[i], acts[i])
  }

  predicate Holds(s: Sys, c: nat) {
    c in s.callers && Matches(s.entries, s.callers[c].key, s.callers[c].hash)
  }

  predicate HasCaller(s: Sys, k: Key) {
    exists c :: c in s.callers && s.callers[c].key == k
  }

  /** Callers hold distinct open entries, and every open entry has its caller. */
  ghost predicate Inv(s: Sys) {
    && (forall c :: c in s.callers ==> Holds(s, c))
    && (forall c, d :: c in s.callers && d in s.callers && c != d ==> s.callers[c].key != s.callers[d].key)
    && (forall k :: k in s.entries && s.entries[k].Open() ==> HasCaller(s, k))
  }

  lemma ApplyKeepsHolders(p: ServerPolicy, s: Sys, a: Act, c: nat)
    requires Inv(s) && c in Apply(p, s, a).callers
    ensures Holds(Apply(p, s, a), c)
  {
    hide Precheck, ContractCheck, Closes;
    assert c in s.callers ==> Holds(s, c);
    assert a.caller in s.callers ==> Holds(s, a.caller);
  }

  lemma ApplyKeepsCallers(p: ServerPolicy, s: Sys, a: Act, k: Key)
    requires Inv(s) && k in Apply(p, s, a).entries && Apply(p, s, a).entries[k].Open()
    ensures HasCaller(Apply(p, s, a), k)
  {
    hide Precheck, ContractCheck, Closes;
    var s' := Apply(p, s, a);
    if k in s.entries && s.entries[k].Open() {
      var c :| c in s.callers && s.callers[c].key == k;
      assert Holds(s, c);
      assert c in s'.callers && s'.callers[c].key == k;
    } else {
      assert a.caller in s'.callers && s'.callers[a.caller].key == k;
    }
  }

  lemma ApplyKeeps(p: ServerPolicy, s: Sys, a: Act)
    requires Inv(s)
    ensures Inv(Apply(p, s, a))
  {
    hide Apply, Holds, HasCaller;
    var s' := Apply(p, s, a);
    forall c | c in s'.callers ensures Holds(s', c) {
      ApplyKeepsHolders(p, s, a, c);
    }
    forall c, d | c in s'.callers && d in s'.callers && c != d ensures s'.callers[c].key != s'.callers[d].key {
      ApplyKeepsApart(p, s, a, c, d);
    }
    forall k | k in s'.entries && s'.entries[k].Open() ensures HasCaller(s', k) {
      ApplyKeepsCallers(p, s, a, k);
    }
  }

  lemma ApplyKeepsApart(p: ServerPolicy, s: Sys, a: Act, c: nat, d: nat)
    requires Inv(s) && c in Apply(p, s, a).callers && d in Apply(p, s, a).callers && c != d
    ensures Apply(p, s, a).callers[c].key != Apply(p, s, a).callers[d].key
  {
    hide Precheck, ContractCheck, Closes, HasCaller;
    assert c in s.callers ==> Holds(s, c);
    assert d in s.callers ==> Holds(s, d);
  }

  lemma {:induction false} RunKeeps(p: ServerPolicy, acts: seq<Act>, ss: seq<Sys>, i: nat)
    requires History(p, acts, ss) && i <= |acts|
    ensures Inv(ss[i])
  {
    hide Apply;
    if i > 0 {
      RunKeeps(p, acts, ss, i - 1);
      assert ss[i] == Apply(p, ss[i - 1], acts[i - 1]);
      ApplyKeeps(p, ss[i - 1], acts[i - 1]);
    }
  }

  /** On one key at most one caller is between reserving and closing, at any moment of any run. */
  lemma OneCallerPerKey(p: ServerPolicy, acts: seq<Act>, ss: seq<Sys>, i: nat, c: nat, d: nat)
    requires History(p, acts, ss) && i <= |acts|
    requires c in ss[i].callers && d in ss[i].callers && ss[i].callers[c].key == ss[i].callers[d].key
    ensures c == d
    ensures Matches(ss[i].entries, ss[i].callers[c].key, ss[i].callers[c].hash)
  {
    RunKeeps(p, acts, ss, i);
    assert Holds(ss[i], c);
  }

  /** The act ends its caller's work with a response. */
  predicate Finishes(s: Sys, a: Act) {
    a.End? && a.work.Ran? && ResponseFits(a.work.run) && a.caller in s.callers && s.callers[a.caller].Working?
  }

  /** Completing never fails for a caller at work: its response becomes the stored one. */
  lemma FinishStores(p: ServerPolicy, acts: seq<Act>, ss: seq<Sys>, i: nat)
    requires History(p, acts, ss) && i < |acts| && Finishes(ss[i], acts[i])
    ensures var w, response := ss[i].callers[acts[i].caller], acts[i].work.response;
      && CompleteOn(ss[i].entries, w.key, w.hash, 200, response).1
      && ss[i + 1].entries == ss[i].entries[w.key := Entry(w.hash, 200, response)]
  {
    RunKeeps(p, acts, ss, i);
    assert Holds(ss[i], acts[i].caller);
    assert ss[i + 1] == Apply(p, ss[i], acts[i]);
  }

  lemma StepKeepsCompleted(p: ServerPolicy, s: Sys, a: Act, key: Key)
    requires Inv(s) && key in s.entries && !s.entries[key].Open()
    ensures key in Apply(p, s, a).entries && Apply(p, s, a).entries[key] == s.entries[key]
  {
    hide Precheck, ContractCheck, Closes;
  }

  /**
   Once completed, an entry never changes; every later reserve gets its response or, with another hash, is refused.
   */
  lemma {:induction false} CompletedForGood(
    p: ServerPolicy, acts: seq<Act>, ss: seq<Sys>, i: nat, j: nat, key: Key, hash: Hash)
    requires History(p, acts, ss) && i <= j <= |acts|
    requires key in ss[i].entries && !ss[i].entries[key].Open()
    ensures key in ss[j].entries && ss[j].entries[key] == ss[i].entries[key]
    ensures var e := ss[i].entries[key];
      ReserveOn(ss[j].entries, key, hash) ==
      (ss[j].entries, if hash == e.hash then Success(Some((e.code, e.response))) else Failure(KeyReused))
  {
    hide Apply;
    if i < j {
      CompletedForGood(p, acts, ss, i, j - 1, key, hash);
      assert ss[j] == Apply(p, ss[j - 1], acts[j - 1]);
      RunKeeps(p, acts, ss, j - 1);
      StepKeepsCompleted(p, ss[j - 1], acts[j - 1], key);
    }
  }

  /** So a key's work is done at most once: two finishes on one key never happen in one run. */
  lemma AtMostOneFinish(p: ServerPolicy, acts: seq<Act>, ss: seq<Sys>, i: nat, j: nat)
    requires History(p, acts, ss) && i < j < |acts| && Finishes(ss[i], acts[i]) && Finishes(ss[j], acts[j])
    ensures ss[i].callers[acts[i].caller].key != ss[j].callers[acts[j].caller].key
  {
    var w := ss[i].callers[acts[i].caller];
    FinishStores(p, acts, ss, i);
    CompletedForGood(p, acts, ss, i + 1, j, w.key, w.hash);
    RunKeeps(p, acts, ss, j);
    assert Holds(ss[j], acts[j].caller);
  }

  // ---------------------------------------------------------------- reservations nobody will close

  /** The key is reserved and nobody is at work on it. */
  predicate LeftOpen(s: Sys, key: Key) {
    && key in s.entries && s.entries[key].Open()
    && forall c :: c in s.callers && s.callers[c].key == key ==> s.callers[c].Gone?
  }

  /**
   The act leaves its key behind: a start whose input is malformed, or work that is interrupted or whose run does not
   fit the response.
   */
  predicate Leaves(s: Sys, a: Act, key: Key) {
    match a
    case Start(_, _, _, input, _) => Reserves(s, a, key) && Malformed(input)
    case Mutate(_, _, _, _) => false
    case End(caller, work) =>
      caller in s.callers && s.callers[caller].Working? && s.callers[caller].key == key && !Closes(work)
  }

  lemma LeavesNow(p: ServerPolicy, s: Sys, a: Act, key: Key)
    requires p.Valid() && Inv(s) && Leaves(s, a, key)
    ensures LeftOpen(Apply(p, s, a), key)
  {
    if a.Start? {
      RefusedExactly(p, a.input);
    } else {
      assert Holds(s, a.caller);
    }
    hide Precheck, ContractCheck, Closes, Malformed, Accepted;
    forall c | c in s.callers ensures Matches(s.entries, s.callers[c].key, s.callers[c].hash) {
      assert Holds(s, c);
    }
  }

  lemma StaysLeft(p: ServerPolicy, s: Sys, a: Act, key: Key)
    requires Inv(s) && LeftOpen(s, key)
    ensures LeftOpen(Apply(p, s, a), key) && Apply(p, s, a).entries[key] == s.entries[key]
  {
    hide Precheck, ContractCheck, Closes;
  }

  lemma OnlyLeavingLeaves(p: ServerPolicy, s: Sys, a: Act, key: Key)
    requires p.Valid() && Inv(s) && !LeftOpen(s, key) && LeftOpen(Apply(p, s, a), key)
    ensures Leaves(s, a, key)
  {
    var s' := Apply(p, s, a);
    if a.Start? && Reserves(s, a, key) {
      RefusedExactly(p, a.input);
    }
    hide Precheck, ContractCheck, Closes, Malformed, Accepted;
    if key in s.entries && s.entries[key].Open() {
      var c :| c in s.callers && s.callers[c].key == key && s.callers[c].Working?;
      assert Holds(s, c);
      assert c in s'.callers ==> s'.callers[c].Gone?;
      assert a.End? && a.caller == c;
    } else {
      assert s'.callers[a.caller].Gone?;
    }
  }

  /** A reservation left open stays so: nobody can close it, and every later call with its key is refused. */
  lemma {:induction false} LeftForGood(
    p: ServerPolicy, acts: seq<Act>, ss: seq<Sys>, i: nat, j: nat, key: Key, hash: Hash)
    requires History(p, acts, ss) && i <= j <= |acts| && LeftOpen(ss[i], key)
    ensures LeftOpen(ss[j], key) && ss[j].entries[key] == ss[i].entries[key]
    ensures ReserveOn(ss[j].entries, key, hash).1 ==
            Failure(if hash == ss[i].entries[key].hash then InProgress else KeyReused)
  {
    hide Apply;
    if i < j {
      LeftForGood(p, acts, ss, i, j - 1, key, hash);
      assert ss[j] == Apply(p, ss[j - 1], acts[j - 1]);
      RunKeeps(p, acts, ss, j - 1);
      StaysLeft(p, ss[j - 1], acts[j - 1], key);
    }
  }

  ghost predicate LeftBy(acts: seq<Act>, ss: seq<Sys>, j: nat, key: Key)
    requires |ss| == |acts| + 1 && j <= |acts|
  {
    exists i :: 0 <= i < j && Leaves(ss[i], acts[i], key)
  }

  /** At any point of any run a key is left open if and only if some earlier act left it. */
  lemma {:induction false} LeftExactly(p: ServerPolicy, acts: seq<Act>, ss: seq<Sys>, j: nat, key: Key)
    requires History(p, acts, ss) && j <= |acts|
    ensures LeftOpen(ss[j], key) <==> LeftBy(acts, ss, j, key)
  {
    hide Apply, Leaves, LeftOpen;
    if i :| 0 <= i < j && Leaves(ss[i], acts[i], key) {
      RunKeeps(p, acts, ss, i);
      assert ss[i + 1] == Apply(p, ss[i], acts[i]);
      LeavesNow(p, ss[i], acts[i], key);
      LeftForGood(p, acts, ss, i + 1, j, key, 0);
    }
    if LeftOpen(ss[j], key) {
      LeftWasLeft(p, acts, ss, j, key);
    }
  }

  lemma {:induction false} LeftWasLeft(p: ServerPolicy, acts: seq<Act>, ss: seq<Sys>, j: nat, key: Key)
    requires History(p, acts, ss) && j <= |acts| && LeftOpen(ss[j], key)
    ensures LeftBy(acts, ss, j, key)
  {
    hide Apply, Leaves;
    if j > 0 {
      RunKeeps(p, acts, ss, j - 1);
      assert ss[j] == Apply(p, ss[j - 1], acts[j - 1]);
      if LeftOpen(ss[j - 1], key) {
        LeftWasLeft(p, acts, ss, j - 1, key);
      } else {
        OnlyLeavingLeaves(p, ss[j - 1], acts[j - 1], key);
      }
    }
  }

  /** Work is never interrupted and returns runs whose fields have their declared types. */
  predicate WorkBehaves(acts: seq<Act>, j: nat)
    requires j <= |acts|
  {
    forall i :: 0 <= i < j && acts[i].End? ==>
      !acts[i].work.Interrupted? && (acts[i].work.Ran? ==> WellTyped(acts[i].work.run))
  }

  predicate StartedMalformed(s: Sys, a: Act, key: Key) {
    a.Start? && Reserves(s, a, key) && Malformed(a.input)
  }

  /**
   When work behaves, a key is left open for good if and only if a start that reserved it had a malformed input: an
   accepted one whose target, locale or a language misses its pattern, or whose query has no word or more than fifty.
   */
  lemma LeftByMalformedStarts(p: ServerPolicy, acts: seq<Act>, ss: seq<Sys>, j: nat, key: Key)
    requires History(p, acts, ss) && j <= |acts| && WorkBehaves(acts, j)
    ensures LeftOpen(ss[j], key) <==> exists i :: 0 <= i < j && StartedMalformed(ss[i], acts[i], key)
  {
    LeftExactly(p, acts, ss, j, key);
    hide Reserves, Malformed, LeftOpen, Apply;
    forall i | 0 <= i < j ensures Leaves(ss[i], acts[i], key) <==> StartedMalformed(ss[i], acts[i], key) {
      if acts[i].End? && acts[i].work.Ran? {
        WellTypedFits(acts[i].work.run);
      }
    }
  }

  /** One accepted input that does it: the locale "??". */
  lemma UnknownLocaleLeavesKey(
    p: ServerPolicy, key: Key, hash: Hash, file: string, claim: string, idempotencyKey: string)
    requires p.Valid() && IdPattern(file) && Within(|idempotencyKey|, 1, 128)
    ensures var input := UnknownLocale(file, claim, idempotencyKey);
      var start := Start(0, key, hash, input, Some(Decision(true, [claim])));
      var left := Sys(map[key := Entry(hash, IN_PROGRESS, IN_PROGRESS_RESPONSE)], map[0 := Gone(key, hash)]);
      Accepted(input) && History(p, [start], [Sys(map[], map[]), left]) && LeftOpen(left, key)
  {
    UnknownLocaleRefused(p, file, claim, idempotencyKey);
    var input := UnknownLocale(file, claim, idempotencyKey);
    var start := Start(0, key, hash, input, Some(Decision(true, [claim])));
    assert Precheck(input, start.decision).None?;
    hide Precheck, ContractCheck, Accepted;
    assert Apply(p, Sys(map[], map[]), start).entries == map[key := Entry(hash, IN_PROGRESS, IN_PROGRESS_RESPONSE)];
  }
}
