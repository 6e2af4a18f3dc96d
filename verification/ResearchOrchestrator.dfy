/** Driving a research run: search, extract, compile, hand off, retry and cancel, with the store kept sound. */
module ResearchOrchestrator {
  import opened Wrappers
  import opened DecisionContracts
  import opened ResearchContracts
  import opened ResearchAudit
  import opened EvidenceRules
  import opened ResearchCompiler
  import opened ResearchSelection
  import opened ResearchStore
  import opened ResearchInvariants
  import DecisionHandoff

  datatype ResearchError =
    | SearchLimitExceeded | ExtractionLimitExceeded | UnknownRun | RetryNotAllowed | RetryAfterActive | AlreadyCompleted
    | NotReadyForHandoff | NothingToHandOff | HandoffRejected(error: HandoffError)

  /** A call returns, or stops because its work was cancelled or its lease lost, or raises. */
  datatype Outcome<T> = Returned(value: T) | Stopped | Raised(error: ResearchError)

  // ---------------------------------------------------------------- what the providers may answer

  datatype SearchAnswer = SearchFailed(error: RunError) | Found(results: seq<SearchResult>)

  /** The final address of a page against the policy, and the page as the normalizer reads it. */
  datatype Page = Page(
    canonicalUrl: Id, retrievedAt: int, contentHash: Id, language: Id, providerNamed: bool, text: PageText, risk: Risk)

  datatype ExtractAnswer =
    | ExtractFailed(error: RunError)
    | Content(finalDomain: Result<Id, Id>, normalized: Result<Page, Id>)

  datatype Origin = Cached(snapshot: Snapshot) | NotAsked(reason: Reason) | Answered(answer: ExtractAnswer)

  const CROSS_DOMAIN_REDIRECT: Id := -1

  function Plain(reason: Reason): RunError { RunError(reason, None) }

  // ---------------------------------------------------------------- the retry window

  /** The last error that carries a wait. */
  function LastWait(errors: seq<RunError>): Option<int> {
    if errors == [] then None
    else if errors[|errors| - 1].retryAfter.Some? then errors[|errors| - 1].retryAfter
    else LastWait(errors[..|errors| - 1])
  }

  /** When the last failed attempt was. */
  function LastFailure(attempts: seq<Attempt>): Option<int> {
    if attempts == [] then None
    else if attempts[|attempts| - 1].status.FailedAttempt? then Some(attempts[|attempts| - 1].occurredAt)
    else LastFailure(attempts[..|attempts| - 1])
  }

  /** When the window closes, if there is one: the last wait counts from the last failed attempt, whichever that was. */
  function RetryAt(errors: seq<RunError>, attempts: seq<Attempt>): Option<int> {
    var wait, failure := LastWait(errors), LastFailure(attempts);
    if wait.Some? && failure.Some? then Some(failure.value + wait.value) else None
  }

  /** The wait is that of the last error that has one. */
  predicate IsLastWait(errors: seq<RunError>, wait: int) {
    exists i :: 0 <= i < |errors| && errors[i].retryAfter == Some(wait)
                && forall j :: i < j < |errors| ==> errors[j].retryAfter == None
  }

  predicate IsLastFailure(attempts: seq<Attempt>, time: int) {
    exists i :: 0 <= i < |attempts| && attempts[i].status.FailedAttempt? && attempts[i].occurredAt == time
                && forall j :: i < j < |attempts| ==> !attempts[j].status.FailedAttempt?
  }

  lemma {:induction false} LastWaitIs(errors: seq<RunError>, wait: int)
    ensures LastWait(errors) == Some(wait) <==> IsLastWait(errors, wait)
  {
    if errors != [] {
      var init, last := errors[..|errors| - 1], errors[|errors| - 1];
      LastWaitIs(init, wait);
      assert forall i :: 0 <= i < |init| ==> init[i] == errors[i];
      if last.retryAfter.None? && IsLastWait(init, wait) {
        var i :| 0 <= i < |init| && init[i].retryAfter == Some(wait)
                 && forall j :: i < j < |init| ==> init[j].retryAfter == None;
        assert errors[i].retryAfter == Some(wait);
      }
    }
  }

  lemma {:induction false} LastFailureIs(attempts: seq<Attempt>, time: int)
    ensures LastFailure(attempts) == Some(time) <==> IsLastFailure(attempts, time)
  {
    if attempts != [] {
      var init, last := attempts[..|attempts| - 1], attempts[|attempts| - 1];
      LastFailureIs(init, time);
      assert forall i :: 0 <= i < |init| ==> init[i] == attempts[i];
      if !last.status.FailedAttempt? && IsLastFailure(init, time) {
        var i :| 0 <= i < |init| && init[i].status.FailedAttempt? && init[i].occurredAt == time
                 && forall j :: i < j < |init| ==> !init[j].status.FailedAttempt?;
        assert attempts[i].status.FailedAttempt?;
      }
    }
  }

  /** The window closes the last wait after the last failed attempt, and there is one only with both. */
  lemma WindowExactly(errors: seq<RunError>, attempts: seq<Attempt>, until: int)
    ensures RetryAt(errors, attempts) == Some(until) <==>
            exists wait, time :: IsLastWait(errors, wait) && IsLastFailure(attempts, time) && until == time + wait
  {
    forall wait ensures LastWait(errors) == Some(wait) <==> IsLastWait(errors, wait) {
      LastWaitIs(errors, wait);
    }
    forall time ensures LastFailure(attempts) == Some(time) <==> IsLastFailure(attempts, time) {
      LastFailureIs(attempts, time);
    }
    hide LastWait, LastFailure, IsLastWait, IsLastFailure;
  }

  /** The caller's check whether to go on; `seen` says that it told a call to stop. */
  class Cancellation {
    ghost var seen: bool

    constructor () {
      seen := false;
    }

    method Check() returns (stop: bool)
      modifies this
      ensures seen == (old(seen) || stop)
    {
      stop := *;
      seen := seen || stop;
    }
  }

  // ---------------------------------------------------------------- the orchestrator

  class ResearchOrchestrator {
    const repository: ResearchRepository
    const handoff: DecisionHandoff.DecisionEvidenceHandoff
    const policy: ResearchPolicy
    const cancellation: Cancellation
    /** How often a provider was called for each run. */
    ghost var calls: map<(Id, Id), nat>

    constructor (
      repository: ResearchRepository, handoff: DecisionHandoff.DecisionEvidenceHandoff, policy: ResearchPolicy)
      requires repository.runs == map[] && repository.events == map[] && DecisionHandoff.Inv(handoff.View())
      ensures this.repository == repository && this.handoff == handoff && this.policy == policy
      ensures Valid()
    {
      this.repository, this.handoff, this.policy := repository, handoff, policy;
      cancellation := new Cancellation();
      calls := map[];
    }

    ghost predicate Valid()
      reads this, repository, handoff
    {
      && (forall key :: RowInv(key, repository.runs, repository.events, repository.used, calls, policy, handoff.View()))
      && DecisionHandoff.Inv(handoff.View())
    }

    /** The rows, events, budgets and calls of all other runs. */
    ghost function Others(key: (Id, Id))
      : (map<(Id, Id), RunData>, map<(Id, Id), seq<AuditEvent>>, map<(Id, Id), nat>, map<(Id, Id), nat>)
      reads this, repository
    {
      (repository.runs - {key}, repository.events - {key}, repository.used - {key}, calls - {key})
    }

    /** The run in memory continues the saved one. */
    ghost predicate Owns(run: ResearchRun)
      reads this, repository, run
    {
      var d := run.Data();
      && run.Key() in repository.runs && run.Key() in repository.used
      && repository.runs[run.Key()].audit <= d.audit
      && Kept(d, repository.used[run.Key()], policy)
    }

    ghost predicate Saved(run: ResearchRun)
      reads repository, run
    {
      run.Key() in repository.runs && repository.runs[run.Key()] == run.Data()
    }

    /** Whether the work was cancelled or its lease lost: the caller's check, free to answer anything. */
    method IsCancelled() returns (stop: bool)
      modifies cancellation
      ensures stop ==> cancellation.seen
    {
      stop := cancellation.Check();
    }

    method Time() returns (now: int) {
      now := *;
    }

    /** Saving never conflicts with what was saved before. */
    method Store(run: ResearchRun)
      requires Valid() && Owns(run) && Promised(handoff.View(), run.Data())
      modifies repository`runs, repository`events
      ensures Valid() && Owns(run)
      ensures Saved(run) && Others(run.Key()) == old(Others(run.Key()))
    {
      ghost var key := run.Key();
      GrownLogSaves(repository.runs[key].audit, run.auditEvents);
      hide Kept, Promised, Clashes, Merge;
      assert RowInv(key, repository.runs, repository.events, repository.used, calls, policy, handoff.View());
      UpdateKeepsOthers(repository.runs, key, run.Data());
      UpdateKeepsOthers(repository.events, key, run.auditEvents);
      var saved := repository.Save(run.Data());
      assert saved.Success?;
      forall k ensures RowInv(k, repository.runs, repository.events, repository.used, calls, policy, handoff.View()) {
        assert RowInv(k, old(repository.runs), old(repository.events), repository.used, calls, policy, handoff.View());
      }
    }

    /** One event more, of the status change and who made it. */
    predicate MovedBy(
      before: seq<AuditEvent>, after: seq<AuditEvent>, source: ResearchStatus, target: ResearchStatus, actor: Id,
      payload: Id)
    {
      && |after| == |before| + 1 && before <= after
      && var e := after[|before|];
         && e.kind == StatusTransitioned && e.fromStatus == source && e.toStatus == target
         && e.actor == actor && e.payload == payload
    }

    /** A transition that is legal from where the run stands: it is never refused. */
    method Move(run: ResearchRun, target: ResearchStatus, retry: bool, actor: Id, payload: Id)
      requires Owns(run) && Transition(run.status, target, retry).Success?
      modifies run`status, run`updatedAt, run`auditEvents
      ensures Owns(run) && run.status == target && run.auditEvents != [] && old(run.auditEvents) < run.auditEvents
      ensures MovedBy(old(run.auditEvents), run.auditEvents, old(run.status), target, actor, payload)
    {
      var now := Time();
      TransitionKeepsLog(run.Data(), target, now, actor, payload, retry);
      var moved := run.ApplyTransition(target, now, actor, payload, retry);
      assert moved.Success?;
    }

    /** A save that brings an event not stored yet, as every save but a late handoff's does. */
    method Save(run: ResearchRun)
      requires Valid() && Owns(run) && Promised(handoff.View(), run.Data())
      requires EventsAt(repository.events, run.Key()) < run.auditEvents
      modifies repository`runs, repository`events
      ensures Valid() && Owns(run)
      ensures Saved(run) && Others(run.Key()) == old(Others(run.Key()))
    {
      Store(run);
    }

    method MoveAndSave(run: ResearchRun, target: ResearchStatus, retry: bool, actor: Id, payload: Id)
      requires Valid() && Owns(run) && Transition(run.status, target, retry).Success?
      requires Promised(handoff.View(), run.Data().(status := target))
      modifies repository`runs, repository`events, run`status, run`updatedAt, run`auditEvents
      ensures Valid() && Owns(run) && Saved(run) && run.status == target && old(run.auditEvents) < run.auditEvents
      ensures MovedBy(old(run.auditEvents), run.auditEvents, old(run.status), target, actor, payload)
      ensures Others(run.Key()) == old(Others(run.Key()))
    {
      StoredLogIsOwned(run);
      Move(run, target, retry, actor, payload);
      hide Kept, Complete;
      Save(run);
    }

    lemma StoredLogIsOwned(run: ResearchRun)
      requires Valid() && Owns(run)
      ensures EventsAt(repository.events, run.Key()) <= run.auditEvents
    {
      assert RowInv(run.Key(), repository.runs, repository.events, repository.used, calls, policy, handoff.View());
    }

    /** The run fails, after noting the error if there is one. */
    method FailRun(run: ResearchRun, actor: Id, error: Option<RunError>)
      requires Valid() && Owns(run) && Transition(run.status, Failed, false).Success? && NoneOpen(run.sources)
      modifies repository`runs, repository`events, run`status, run`updatedAt, run`auditEvents, run`errors
      ensures Valid() && Owns(run) && run.status == Failed
      ensures Saved(run) && Others(run.Key()) == old(Others(run.Key()))
    {
      if error.Some? {
        RecordError(run, error.value);
      }
      MoveAndSave(run, Failed, false, actor, |run.errors|);
    }

    method CanAttempt(run: ResearchRun, operation: Operation, source: Option<SourceId>) returns (can: bool)
      ensures can <==> Tries(run.attempts, operation, source) < policy.maxAttempts
    {
      var tried := 0;
      for i := 0 to |run.attempts|
        invariant tried == Tries(run.attempts[..i], operation, source)
      {
        assert run.attempts[..i + 1][..i] == run.attempts[..i];
        if run.attempts[i].operation == operation && run.attempts[i].source == source {
          tried := tried + 1;
        }
      }
      assert run.attempts[..|run.attempts|] == run.attempts;
      return tried < policy.maxAttempts;
    }

    /** Take one unit of the budget for one attempt. */
    method Reserve(run: ResearchRun, operation: Operation, source: Option<SourceId>) returns (reserved: bool)
      requires Valid() && Owns(run) && Tries(run.attempts, operation, source) < policy.maxAttempts
      modifies repository`used, run`costUnits, run`attempts
      ensures Valid() && Owns(run)
      ensures Others(run.Key()) == old(Others(run.Key()))
      ensures reserved ==> run.Key() in calls && calls[run.Key()] < repository.used[run.Key()]
      ensures reserved ==> run.attempts != [] && run.attempts[..|run.attempts| - 1] == old(run.attempts)
      ensures reserved ==> run.attempts[|run.attempts| - 1].(occurredAt := 0) == Attempt(operation, source, Started, 0)
      ensures reserved <==> run.Key() in old(repository.used) && old(repository.used)[run.Key()] < policy.budget
      ensures reserved ==> repository.used == old(repository.used)[run.Key() := run.costUnits]
      ensures !reserved ==> unchanged(run) && unchanged(repository)
    {
      ghost var key := run.Key();
      assert RowInv(key, repository.runs, repository.events, repository.used, calls, policy, handoff.View());
      var taken := repository.ReserveBudget(run.Key(), policy.budget);
      if taken.Failure? {
        assert taken.error == BudgetSpent;
        return false;
      }
      UpdateKeepsOthers(old(repository.used), key, taken.value);
      var now := Time();
      var attempt := Attempt(operation, source, Started, now);
      TriesAppend(run.attempts, attempt, policy.maxAttempts);
      run.costUnits := taken.value;
      run.attempts := run.attempts + [attempt];
      hide Sound, Promised, TriesWithin;
      forall k ensures RowInv(k, repository.runs, repository.events, repository.used, calls, policy, handoff.View()) {
        assert RowInv(k, repository.runs, repository.events, old(repository.used), calls, policy, handoff.View());
      }
      return true;
    }

    method RelabelAttempt(run: ResearchRun, status: AttemptStatus)
      requires Owns(run) && run.attempts != []
      modifies run`attempts
      ensures Owns(run) && |run.attempts| == |old(run.attempts)|
      ensures var last := |run.attempts| - 1;
        run.attempts == old(run.attempts)[last := old(run.attempts)[last].(status := status)]
    {
      TriesRelabel(run.attempts, status, policy.maxAttempts);
      run.attempts := run.attempts[|run.attempts| - 1 := run.attempts[|run.attempts| - 1].(status := status)];
    }

    method RecordError(run: ResearchRun, error: RunError)
      requires Owns(run)
      modifies run`errors
      ensures Owns(run) && run.errors == old(run.errors) + [error]
    {
      run.errors := run.errors + [error];
    }

    /**
     A provider at work on a reserved unit. While it works it may report any number of egress decisions, each of
     which is appended to the log and saved.
     */
    method AwaitProvider(run: ResearchRun, actor: Id)
      requires Valid() && Owns(run) && (run.status.Searching? || run.status.Extracting?)
      requires run.Key() in calls && calls[run.Key()] < repository.used[run.Key()]
      modifies this`calls, repository`runs, repository`events, run`auditEvents
      ensures Valid() && Owns(run)
      ensures Others(run.Key()) == old(Others(run.Key()))
      ensures run.Key() in calls && calls[run.Key()] == old(calls)[run.Key()] + 1
    {
      ghost var key := run.Key();
      UpdateKeepsOthers(calls, key, calls[key] + 1);
      calls := calls[key := calls[key] + 1];
      assert Valid() by {
        hide Kept, Promised;
        forall k ensures RowInv(k, repository.runs, repository.events, repository.used, calls, policy, handoff.View()) {
          assert RowInv(k, repository.runs, repository.events, repository.used, old(calls), policy, handoff.View());
        }
      }
      hide Valid, Owns, Others;
      var decisions: seq<Id> := *;
      for i := 0 to |decisions|
        invariant Valid() && Owns(run)
        invariant Others(key) == old(Others(key)) && key in calls && calls[key] == old(calls)[key] + 1
      {
        RecordEgressDecision(run, actor, decisions[i]);
      }
    }

    method RecordEgressDecision(run: ResearchRun, actor: Id, decision: Id)
      requires Valid() && Owns(run) && (run.status.Searching? || run.status.Extracting?)
      modifies repository`runs, repository`events, run`auditEvents
      ensures Valid() && Owns(run)
      ensures Others(run.Key()) == old(Others(run.Key()))
    {
      hide Valid, Complete, Others;
      var now := Time();
      EgressKeepsLog(run.Data(), now, actor, decision);
      StoredLogIsOwned(run);
      run.AppendEgressDecision(now, actor, decision);
      Save(run);
    }

    /** A provider call between two cancellation checks; a cancellation seen by the first counts as a failed call. */
    method CallProvider(run: ResearchRun, actor: Id) returns (answered: bool, stopped: bool)
      requires Valid() && Owns(run) && (run.status.Searching? || run.status.Extracting?)
      requires run.Key() in calls && calls[run.Key()] < repository.used[run.Key()]
      modifies this`calls, repository`runs, repository`events, run`auditEvents
      modifies cancellation
      ensures stopped ==> cancellation.seen
      ensures Valid() && Owns(run)
      ensures Others(run.Key()) == old(Others(run.Key()))
    {
      var early := IsCancelled();
      answered := !early;
      if answered {
        AwaitProvider(run, actor);
      }
      stopped := IsCancelled();
    }

    method StoreFound(run: ResearchRun, results: seq<SearchResult>)
      requires Owns(run) && run.status == Searching && run.sources == []
      modifies run`sources
      ensures Owns(run) && DistinctDiscovered(run.sources)
      ensures forall k :: 0 <= k < |run.sources| ==> run.sources[k].status.Discovered? || run.sources[k].status.Blocked?
      ensures run.sources == Discoveries(FirstResults(results, run.request.maxSearchResults))
    {
      if run.evidence != [] {
        EvidenceHasSource(run.Data(), 0);
      }
      StoreDiscovery(run, results);
      DiscoveriesAreDistinct(FirstResults(results, run.request.maxSearchResults));
    }

    method ConcludeSearch(run: ResearchRun, actor: Id, answer: SearchAnswer) returns (found: bool)
      requires Valid() && Owns(run) && run.status == Searching && run.sources == [] && run.attempts != []
      modifies repository`runs, repository`events
      modifies run`status, run`updatedAt, run`auditEvents, run`sources, run`attempts, run`errors
      ensures Valid() && Owns(run) && Saved(run)
      ensures found ==> run.status == SourcesDiscovered && DistinctDiscovered(run.sources)
      ensures found ==> forall k :: 0 <= k < |run.sources| ==>
              run.sources[k].status.Discovered? || run.sources[k].status.Blocked?
      ensures !found ==> run.status == Failed && run.sources == []
      ensures found <==> answer.Found?
      ensures found ==> run.sources == Discoveries(FirstResults(answer.results, run.request.maxSearchResults))
      ensures Others(run.Key()) == old(Others(run.Key()))
    {
      hide Valid, Owns, Complete, Others, Saved;
      if answer.SearchFailed? {
        RelabelAttempt(run, FailedAttempt(answer.error.reason));
        FailRun(run, actor, Some(answer.error));
        return false;
      }
      RelabelAttempt(run, Succeeded);
      StoreFound(run, answer.results);
      MoveAndSave(run, SourcesDiscovered, false, actor, |run.sources|);
      return true;
    }

    /** A search: it ends with the sources saved, or with the run failed and saved, or stopped. */
    method Discover(run: ResearchRun, actor: Id) returns (o: Outcome<bool>, ghost found: Option<seq<SearchResult>>)
      requires Valid() && Owns(run) && run.status == Searching && run.sources == []
      modifies this`calls, repository
      modifies run`status, run`updatedAt, run`auditEvents, run`sources, run`attempts, run`costUnits, run`errors
      modifies cancellation
      ensures o.Stopped? ==> cancellation.seen
      ensures Valid() && Owns(run) && !o.Raised?
      ensures o.Returned? ==> Saved(run)
      ensures o == Returned(true) ==> run.status == SourcesDiscovered && DistinctDiscovered(run.sources)
      ensures o == Returned(true) ==> forall k :: 0 <= k < |run.sources| ==>
              run.sources[k].status.Discovered? || run.sources[k].status.Blocked?
      ensures o == Returned(false) ==> run.status == Failed && run.sources == []
      ensures o.Returned? ==> (o.value <==> found.Some?)
      ensures o == Returned(true) ==>
                run.sources == Discoveries(FirstResults(found.value, run.request.maxSearchResults))
      ensures Others(run.Key()) == old(Others(run.Key()))
    {
      hide Valid, Owns, Complete, Others, Saved, Discoveries, FirstResults;
      found := None;
      var stop := IsCancelled();
      if stop {
        return Stopped, found;
      }
      var can := CanAttempt(run, SearchOp, None);
      if !can {
        FailRun(run, actor, Some(Plain(RetryLimitExceeded)));
        return Returned(false), found;
      }
      var open: bool := *;
      if open {
        FailRun(run, actor, Some(Plain(ProviderCircuitOpen)));
        return Returned(false), found;
      }
      stop := IsCancelled();
      if stop {
        return Stopped, found;
      }
      o, found := SearchOnce(run, actor);
    }

    /** One search on a reserved unit. */
    method SearchOnce(run: ResearchRun, actor: Id) returns (o: Outcome<bool>, ghost found: Option<seq<SearchResult>>)
      requires Valid() && Owns(run) && run.status == Searching && run.sources == []
      requires Tries(run.attempts, SearchOp, None) < policy.maxAttempts
      modifies this`calls, repository
      modifies run`status, run`updatedAt, run`auditEvents, run`sources, run`attempts, run`costUnits, run`errors
      modifies cancellation
      ensures o.Stopped? ==> cancellation.seen
      ensures Valid() && Owns(run) && !o.Raised?
      ensures o.Returned? ==> Saved(run)
      ensures o == Returned(true) ==> run.status == SourcesDiscovered && DistinctDiscovered(run.sources)
      ensures o == Returned(true) ==> forall k :: 0 <= k < |run.sources| ==>
              run.sources[k].status.Discovered? || run.sources[k].status.Blocked?
      ensures o == Returned(false) ==> run.status == Failed && run.sources == []
      ensures o.Returned? ==> (o.value <==> found.Some?)
      ensures o == Returned(true) ==>
                run.sources == Discoveries(FirstResults(found.value, run.request.maxSearchResults))
      ensures Others(run.Key()) == old(Others(run.Key()))
    {
      hide Valid, Owns, Complete, Others, Saved, Discoveries, FirstResults;
      found := None;
      var reserved := Reserve(run, SearchOp, None);
      if !reserved {
        FailRun(run, actor, Some(Plain(BudgetExceeded)));
        return Returned(false), found;
      }
      var answered, stopped := CallProvider(run, actor);
      if stopped {
        return Stopped, found;
      }
      var answer := SearchFailed(Plain(ProviderUnavailable));
      if answered {
        answer := *;
      }
      var concluded := ConcludeSearch(run, actor, answer);
      return Returned(concluded), if answer.Found? then Some(answer.results) else None;
    }

    // -------------------------------------------------------------- extraction

    predicate Unsettled(s: Source) {
      !s.status.Extracted? && !s.status.ReviewRequired?
    }

    /** Changing a source that no evidence rests on. */
    method SetSource(run: ResearchRun, k: nat, status: SourceStatus, reasons: seq<Reason>)
      requires Owns(run) && k < |run.sources| && Unsettled(run.sources[k])
      requires !status.Extracted? && !status.ReviewRequired?
      modifies run`sources
      ensures Owns(run)
      ensures run.sources == old(run.sources)[k := old(run.sources)[k].(status := status, reasons := reasons)]
    {
      var s := run.sources[k].(status := status, reasons := reasons);
      SourceChangeKeeps(run.Data(), k, s);
      run.sources := run.sources[k := s];
    }

    method CitationOnlySource(run: ResearchRun, k: nat, error: RunError)
      requires Owns(run) && k < |run.sources| && Unsettled(run.sources[k])
      modifies run`sources, run`errors
      ensures Owns(run)
      ensures run.sources ==
              old(run.sources)[k := old(run.sources)[k].(
                                      status := CitationOnly, reasons := [SearchCitationOnly, error.reason])]
    {
      SetSource(run, k, CitationOnly, [SearchCitationOnly, error.reason]);
      RecordError(run, error);
    }

    /** Only source k changed, and it is still the same source. */
    predicate TouchedOnly(before: seq<Source>, after: seq<Source>, k: nat) {
      && k < |before| == |after|
      && after == before[k := after[k]]
      && SameSource(before[k], after[k])
    }

    /** The page the answer gives for this source: content from the source's own domain that the normalizer reads. */
    predicate GivesPage(answer: ExtractAnswer, source: Source) {
      answer.Content? && answer.finalDomain == Success(source.domain) && answer.normalized.Success?
    }

    predicate IsPageOf(snapshot: Snapshot, page: Page, source: Source) {
      && MadeFor(snapshot, source) && snapshot.canonicalUrl == page.canonicalUrl && snapshot.domain == source.domain
      && snapshot.contentHash == page.contentHash && snapshot.retrievedAt == page.retrievedAt
      && snapshot.language == page.language && snapshot.providerNamed == page.providerNamed
      && snapshot.text == page.text && snapshot.risk == page.risk
    }

    /** A cached page, made over to this source. */
    predicate IsCopyFor(snapshot: Snapshot, cached: Snapshot, source: Source) {
      && MadeFor(snapshot, source) && snapshot.canonicalUrl == source.canonicalUrl && snapshot.domain == source.domain
      && snapshot == cached.(id := snapshot.id, source := source.id, canonicalUrl := source.canonicalUrl,
                             domain := source.domain)
    }

    /** Where the page came from, if any: the cache, the provider's answer, or nobody was asked, and why. */
    predicate Explains(origin: Origin, source: Source, snapshot: Option<Snapshot>) {
      match origin
      case Cached(cached) => snapshot.Some? && IsCopyFor(snapshot.value, cached, source)
      case NotAsked(reason) => snapshot.None? && reason in {RetryLimitExceeded, ProviderCircuitOpen, BudgetExceeded}
      case Answered(answer) =>
        && (snapshot.Some? <==> GivesPage(answer, source))
        && (snapshot.Some? ==> IsPageOf(snapshot.value, answer.normalized.value, source))
    }

    lemma NobodyAsked(reason: Reason, source: Source)
      requires reason in {RetryLimitExceeded, ProviderCircuitOpen, BudgetExceeded}
      ensures Explains(NotAsked(reason), source, None)
    {
    }

    method ConcludeExtraction(run: ResearchRun, k: nat, answer: ExtractAnswer) returns (snapshot: Option<Snapshot>)
      requires Owns(run) && k < |run.sources| && run.sources[k].status.Selected? && run.attempts != []
      modifies run`sources, run`attempts, run`errors
      ensures Owns(run) && TouchedOnly(old(run.sources), run.sources, k)
      ensures if snapshot.Some? then run.sources == old(run.sources) && MadeFor(snapshot.value, run.sources[k])
              else run.sources[k].status.CitationOnly?
      ensures Explains(Answered(answer), old(run.sources)[k], snapshot)
    {
      hide Owns;
      var source := run.sources[k];
      var refused :=
        if answer.ExtractFailed? then Some(answer.error)
        else if answer.finalDomain.Failure? then Some(Plain(Rejection(answer.finalDomain.error)))
        else if answer.finalDomain.value != source.domain then Some(Plain(Rejection(CROSS_DOMAIN_REDIRECT)))
        else if answer.normalized.Failure? then Some(Plain(Rejection(answer.normalized.error)))
        else None;
      if refused.Some? {
        RelabelAttempt(run, FailedAttempt(refused.value.reason));
        CitationOnlySource(run, k, refused.value);
        return None;
      }
      RelabelAttempt(run, Succeeded);
      var page := answer.normalized.value;
      return Some(Snapshot(SnapshotId(source.id, page.contentHash), source.id, page.canonicalUrl, source.domain,
                           page.retrievedAt, page.contentHash, page.language, page.providerNamed, page.text,
                           page.risk));
    }

    /** One page for the selected source k from the provider, on a reserved unit, or not at all. */
    method ExtractFresh(run: ResearchRun, k: nat, actor: Id)
      returns (o: Outcome<Option<Snapshot>>, ghost origin: Origin)
      requires Valid() && Owns(run) && run.status == Extracting && k < |run.sources| && run.sources[k].status.Selected?
      modifies this`calls, repository
      modifies run`auditEvents, run`sources, run`attempts, run`costUnits, run`errors
      modifies cancellation
      ensures o.Stopped? ==> cancellation.seen
      ensures Valid() && Owns(run) && !o.Raised?
      ensures TouchedOnly(old(run.sources), run.sources, k)
      ensures o.Returned? && o.value.Some? ==> run.sources[k].status.Selected? && MadeFor(o.value.value, run.sources[k])
      ensures o.Returned? && o.value.None? ==> run.sources[k].status.CitationOnly?
      ensures o.Returned? ==> !origin.Cached? && Explains(origin, old(run.sources)[k], o.value)
      ensures origin == NotAsked(RetryLimitExceeded) ==>
                Tries(old(run.attempts), ExtractOp, Some(old(run.sources)[k].id)) >= policy.maxAttempts
      ensures Others(run.Key()) == old(Others(run.Key()))
    {
      hide Valid, Owns, Others, Explains;
      origin := NotAsked(ProviderUnavailable);
      var source := run.sources[k].id;
      var can := CanAttempt(run, ExtractOp, Some(source));
      if !can {
        CitationOnlySource(run, k, Plain(RetryLimitExceeded));
        origin := NotAsked(RetryLimitExceeded);
        NobodyAsked(RetryLimitExceeded, old(run.sources)[k]);
        return Returned(None), origin;
      }
      var open: bool := *;
      if open {
        CitationOnlySource(run, k, Plain(ProviderCircuitOpen));
        origin := NotAsked(ProviderCircuitOpen);
        NobodyAsked(ProviderCircuitOpen, old(run.sources)[k]);
        return Returned(None), origin;
      }
      var stop := IsCancelled();
      if stop {
        return Stopped, origin;
      }
      var reserved := Reserve(run, ExtractOp, Some(source));
      if !reserved {
        CitationOnlySource(run, k, Plain(BudgetExceeded));
        origin := NotAsked(BudgetExceeded);
        NobodyAsked(BudgetExceeded, old(run.sources)[k]);
        return Returned(None), origin;
      }
      var answered, stopped := CallProvider(run, actor);
      if stopped {
        return Stopped, origin;
      }
      var answer := ExtractFailed(Plain(ProviderUnavailable));
      if answered {
        answer := *;
      }
      var snapshot := ConcludeExtraction(run, k, answer);
      return Returned(snapshot), Answered(answer);
    }

    /** One page for source k: from the cache, or from the provider on a reserved unit, or not at all. */
    method ObtainSnapshot(run: ResearchRun, k: nat, actor: Id)
      returns (o: Outcome<Option<Snapshot>>, ghost origin: Origin)
      requires Valid() && Owns(run) && run.status == Extracting && k < |run.sources| && Unsettled(run.sources[k])
      modifies this`calls, repository
      modifies run`auditEvents, run`sources, run`attempts, run`costUnits, run`errors
      modifies cancellation
      ensures o.Stopped? ==> cancellation.seen
      ensures Valid() && Owns(run) && !o.Raised?
      ensures TouchedOnly(old(run.sources), run.sources, k)
      ensures o.Returned? && o.value.Some? ==> run.sources[k].status.Selected? && MadeFor(o.value.value, run.sources[k])
      ensures o.Returned? && o.value.None? ==> run.sources[k].status.CitationOnly?
      ensures o.Returned? ==> Explains(origin, old(run.sources)[k], o.value)
      ensures o.Returned? && run.request.forceRefresh ==> !origin.Cached?
      ensures Others(run.Key()) == old(Others(run.Key()))
    {
      hide Valid, Owns, Others;
      origin := NotAsked(ProviderUnavailable);
      var stop := IsCancelled();
      if stop {
        return Stopped, origin;
      }
      SetSource(run, k, Selected, [SourceSelected]);
      var source := run.sources[k];
      var cached: Option<Snapshot> := *;
      if !run.request.forceRefresh && cached.Some? {
        return Returned(Some(cached.value.(
                               id := SnapshotId(source.id, cached.value.contentHash), source := source.id,
                               canonicalUrl := source.canonicalUrl, domain := source.domain))),
          Cached(cached.value);
      }
      o, origin := ExtractFresh(run, k, actor);
    }

    /** The sources that would be extracted but were not chosen are skipped. */
    method SkipUnselected(run: ResearchRun, candidates: seq<nat>)
      requires Owns(run) && DistinctDiscovered(run.sources)
      requires forall k :: 0 <= k < |run.sources| ==>
               run.sources[k].status.Discovered? || run.sources[k].status.Blocked?
      requires forall m :: m in candidates ==> m < |run.sources| && run.sources[m].status.Discovered?
      modifies run`sources
      ensures Owns(run) && |run.sources| == |old(run.sources)|
      ensures forall k :: 0 <= k < |run.sources| ==>
                run.sources[k] == if old(run.sources)[k].status.Discovered? && k !in candidates
                                  then old(run.sources)[k].(status := SkippedLimit, reasons := [SourceLimitReached])
                                  else old(run.sources)[k]
      ensures SameSources(old(run.sources), run.sources)
    {
      var selected := set m | m in candidates :: run.sources[m].id;
      ghost var before := run.sources;
      hide Owns;
      for i := 0 to |run.sources|
        invariant Owns(run) && |run.sources| == |before|
        invariant forall k :: 0 <= k < i ==>
                  run.sources[k] ==
                  if before[k].status.Discovered? && before[k].id !in selected
                  then before[k].(status := SkippedLimit, reasons := [SourceLimitReached])
                                                               else before[k]
        invariant forall k :: i <= k < |before| ==> run.sources[k] == before[k]
      {
        if run.sources[i].status.Discovered? && run.sources[i].id !in selected {
          SetSource(run, i, SkippedLimit, [SourceLimitReached]);
        }
      }
    }

    /** A page whose content is new to the run becomes a snapshot and an assessed evidence item. */
    method RecordPage(run: ResearchRun, k: nat, snapshot: Snapshot)
      requires Owns(run) && k < |run.sources| && run.sources[k].status.Selected? && MadeFor(snapshot, run.sources[k])
      requires snapshot.contentHash !in Hashes(run.snapshots)
      modifies run`snapshots, run`evidence, run`sources
      ensures Owns(run) && TouchedOnly(old(run.sources), run.sources, k) && !Open(run.sources[k])
      ensures Hashes(run.snapshots) == Hashes(old(run.snapshots)) + {snapshot.contentHash}
      ensures Recorded(policy.evidence, old(run.Data()), run.Data(), k, snapshot)
    {
      hide Kept, Observed, Recorded;
      ghost var d := run.Data();
      var id := EvidenceId(run.runId, snapshot.contentHash);
      var assessment := Assess(policy.evidence, snapshot, run.sources[k], run.request.maximumAgeDays);
      NewPageKeeps(d, k, snapshot, assessment, repository.used[run.Key()], policy);
      run.snapshots := run.snapshots + [snapshot];
      if forall i :: 0 <= i < |run.evidence| ==> run.evidence[i].id != id {
        run.evidence := run.evidence + [
          Evidence(id, run.request.claimRefs, run.sources[k].id, snapshot.id, snapshot.contentHash, assessment,
            snapshot.risk)];
      }
      var status := if assessment.usable then Extracted else ReviewRequired;
      run.sources := run.sources[k := run.sources[k].(status := status)];
      assert run.Data() == RecordedOn(d, k, snapshot, assessment);
      RecordedOnIs(policy.evidence, d, k, snapshot, assessment);
    }

    /**
     Work through the candidates; on return none of the run's sources is left discovered or selected, and the run's new
     snapshots are the pages that were the first with their content, in order.
     */
    method ExtractSources(run: ResearchRun, actor: Id, candidates: seq<nat>)
      returns (o: Outcome<()>, ghost pages: seq<Option<Snapshot>>)
      requires Valid() && Owns(run) && run.status == Extracting
      requires forall m :: 0 <= m < |candidates| ==>
               candidates[m] < |run.sources| && Unsettled(run.sources[candidates[m]])
      requires forall m, n :: 0 <= m < n < |candidates| ==> candidates[m] != candidates[n]
      requires forall k :: 0 <= k < |run.sources| && Open(run.sources[k]) ==> k in candidates
      modifies this`calls, repository
      modifies run`auditEvents, run`sources, run`snapshots, run`evidence, run`attempts, run`costUnits, run`errors
      modifies cancellation
      ensures o.Stopped? ==> cancellation.seen
      ensures Valid() && Owns(run) && !o.Raised?
      ensures o.Returned? ==> NoneOpen(run.sources)
      ensures o.Returned? ==> Worked(old(run.Data()), run.Data(), candidates, pages)
      ensures Others(run.Key()) == old(Others(run.Key()))
    {
      hide Valid, Owns, Others, Hashes, SettledBy, Worked, TouchedOnly, Unsettled, Open;
      ghost var before := run.Data();
      pages := [];
      var seen := Hashes(run.snapshots);
      assert candidates[..0] == [];
      NothingWorked(before);
      for i := 0 to |candidates|
        invariant Valid() && Owns(run) && |run.sources| == |old(run.sources)|
        invariant forall m :: i <= m < |candidates| ==> Unsettled(run.sources[candidates[m]])
        invariant forall m :: 0 <= m < i ==> !Open(run.sources[candidates[m]])
        invariant forall k :: 0 <= k < |run.sources| && Open(run.sources[k]) ==> k in candidates
        invariant seen == Hashes(run.snapshots)
        invariant Worked(before, run.Data(), candidates[..i], pages)
        invariant Others(run.Key()) == old(Others(run.Key()))
      {
        ghost var d := run.Data();
        var settled, page := SettleCandidate(run, candidates[i], actor, seen);
        if settled.Stopped? {
          return Stopped, pages;
        }
        seen := settled.value;
        OneLess(d.sources, run.sources, candidates, i);
        assert candidates[..i + 1] == candidates[..i] + [candidates[i]];
        WorkedNext(before, d, run.Data(), candidates[..i], pages, candidates[i], page, policy.evidence);
        pages := pages + [page];
      }
      assert candidates[..|candidates|] == candidates;
      return Returned(()), pages;
    }

    /** With candidate i settled the later ones are as they were. */
    lemma OneLess(before: seq<Source>, after: seq<Source>, candidates: seq<nat>, i: nat)
      requires i < |candidates| && forall m, n :: 0 <= m < n < |candidates| ==> candidates[m] != candidates[n]
      requires forall m :: 0 <= m < |candidates| ==> candidates[m] < |before|
      requires TouchedOnly(before, after, candidates[i]) && !Open(after[candidates[i]])
      requires forall m :: i <= m < |candidates| ==> Unsettled(before[candidates[m]])
      requires forall m :: 0 <= m < i ==> !Open(before[candidates[m]])
      requires forall k :: 0 <= k < |before| && Open(before[k]) ==> k in candidates
      ensures |after| == |before|
      ensures forall m :: i + 1 <= m < |candidates| ==> Unsettled(after[candidates[m]])
      ensures forall m :: 0 <= m < i + 1 ==> !Open(after[candidates[m]])
      ensures forall k :: 0 <= k < |after| && Open(after[k]) ==> k in candidates
    {
      hide Unsettled, Open, SameSource;
    }

    /**
     One candidate: its page recorded, a duplicate, or citation only; the contents seen so far are kept up to date.
     */
    method SettleCandidate(run: ResearchRun, k: nat, actor: Id, seen: set<Id>)
      returns (o: Outcome<set<Id>>, ghost page: Option<Snapshot>)
      requires Valid() && Owns(run) && run.status == Extracting && k < |run.sources| && Unsettled(run.sources[k])
      requires seen == Hashes(run.snapshots)
      modifies this`calls, repository
      modifies run`auditEvents, run`sources, run`snapshots, run`evidence, run`attempts, run`costUnits, run`errors
      modifies cancellation
      ensures o.Stopped? ==> cancellation.seen
      ensures Valid() && Owns(run) && !o.Raised?
      ensures TouchedOnly(old(run.sources), run.sources, k)
      ensures o.Returned? ==> !Open(run.sources[k]) && o.value == Hashes(run.snapshots)
      ensures o.Returned? ==> SettledBy(policy.evidence, old(run.Data()), run.Data(), k, page)
      ensures Others(run.Key()) == old(Others(run.Key()))
    {
      hide Valid, Owns, Others, Explains, Recorded, Hashes, HasContent;
      page := None;
      ghost var before := run.Data();
      var stop := IsCancelled();
      if stop {
        return Stopped, page;
      }
      var obtained, origin := ObtainSnapshot(run, k, actor);
      if obtained.Stopped? {
        return Stopped, page;
      }
      var snapshot := obtained.value;
      page := snapshot;
      if snapshot.None? {
        return Returned(seen), page;
      }
      stop := IsCancelled();
      if stop {
        return Stopped, page;
      }
      ghost var selected := run.Data();
      var known := SettlePage(run, k, snapshot.value, seen);
      SelectedIsNoStep(policy.evidence, before, selected, run.Data(), k, snapshot.value);
      return Returned(known), page;
    }

    /** A page that was obtained: recorded if its content is new, and otherwise its source is a duplicate. */
    method SettlePage(run: ResearchRun, k: nat, page: Snapshot, seen: set<Id>) returns (known: set<Id>)
      requires Owns(run) && k < |run.sources| && run.sources[k].status.Selected? && MadeFor(page, run.sources[k])
      requires seen == Hashes(run.snapshots)
      modifies run`sources, run`snapshots, run`evidence
      ensures Owns(run) && TouchedOnly(old(run.sources), run.sources, k)
      ensures !Open(run.sources[k]) && known == Hashes(run.snapshots)
      ensures SettledBy(policy.evidence, old(run.Data()), run.Data(), k, Some(page))
    {
      HashIsContent(run.snapshots, page.contentHash);
      hide Owns, Hashes, HasContent, Recorded;
      if page.contentHash in seen {
        SetSource(run, k, DuplicateContent, [ContentDuplicate]);
        return seen;
      }
      RecordPage(run, k, page);
      return seen + {page.contentHash};
    }

    // -------------------------------------------------------------- compiling and handing off

    /** Mark conflicts and compile; the lookup of an item's snapshot never misses. */
    method MarkAndCompile(run: ResearchRun) returns (compiled: seq<DecisionEvidence>)
      requires Owns(run) && NoneOpen(run.sources) && run.snapshots != []
      modifies run`evidence, run`sources
      ensures Owns(run) && NoneOpen(run.sources) && run.sources != [] && run.evidence != []
      ensures AllCompiled(run.evidence, compiled) && CompiledFrom(run.Data(), compiled)
      ensures MarkedFrom(old(run.Data()), run.Data()) && SameSources(old(run.sources), run.sources)
      ensures NonePartial(run.sources) ==>
                AllClear(run.sources, run.evidence, run.snapshots)
    {
      hide AllClear, TriesWithin, Sound, MarkedFrom, AllCompiled, CompiledFrom;
      ghost var before := run.Data();
      MarkConflictingEvidence(run);
      ghost var d := run.Data();
      MarkKeeps(before, d);
      MarkKeepsSources(before, d);
      if NonePartial(d.sources) {
        NothingPartial(before, d);
      }
      SnapshotHasSource(d);
      compiled := CompileRun(run);
    }

    method CompileRun(run: ResearchRun) returns (compiled: seq<DecisionEvidence>)
      requires Sound(run.Data())
      ensures AllCompiled(run.evidence, compiled) && CompiledFrom(run.Data(), compiled)
      ensures compiled != [] ==> SomeEligible(run.Data())
    {
      ghost var d := run.Data();
      hide Sound, Places, AllCompiled;
      EveryItemFound(d);
      var r := Compile(run.Data());
      compiled := r.value;
      CompiledCovers(d, compiled);
    }

    /** Attaching keeps every saved run's promise; on success everything handed over is in the file. */
    method AttachTo(run: ResearchRun, compiled: seq<DecisionEvidence>) returns (r: Result<Document, HandoffError>)
      requires Valid()
      modifies handoff
      ensures Valid()
      ensures (handoff.View(), r) == DecisionHandoff.AttachOn(
                old(handoff.View()), run.tenant, run.request.decisionFile, run.expectedHash, compiled)
      ensures r.Failure? ==> unchanged(handoff)
      ensures r.Success? ==> (run.tenant, run.request.decisionFile) in handoff.documents
      ensures r.Success? ==> forall e :: e in compiled ==>
              e.id in DecisionHandoff.IdsOf(handoff.documents[(run.tenant, run.request.decisionFile)].evidence)
    {
      hide Promised, Kept, DecisionHandoff.AttachOn, DecisionHandoff.Inv, DecisionHandoff.Grown;
      ghost var s := handoff.View();
      ghost var op := DecisionHandoff.OpAttach(run.tenant, run.request.decisionFile, run.expectedHash, compiled);
      DecisionHandoff.ApplyKeeps(s, op);
      r := handoff.Attach(run.tenant, run.request.decisionFile, run.expectedHash, compiled);
      assert handoff.View() == DecisionHandoff.Apply(s, op);
      if r.Success? {
        DecisionHandoff.AttachedIsThere(s, run.tenant, run.request.decisionFile, run.expectedHash, compiled);
      } else {
        DecisionHandoff.RefusalKeeps(s, run.tenant, run.request.decisionFile, run.expectedHash, compiled);
        assert handoff.documents == s.documents && handoff.handoffs == s.handoffs;
      }
      forall k ensures RowInv(k, repository.runs, repository.events, repository.used, calls, policy, handoff.View()) {
        assert RowInv(k, repository.runs, repository.events, repository.used, calls, policy, s);
        if k in repository.runs {
          GrowthKeepsPromises(s, handoff.View(), repository.runs[k]);
        }
      }
    }

    /** Hand the compiled items over; a refusal is noted as an error of the run. */
    method HandOver(run: ResearchRun, compiled: seq<DecisionEvidence>) returns (failed: bool)
      requires Valid() && Owns(run)
      modifies handoff, run`expectedHash, run`compiledDecisionFile, run`errors
      ensures Valid() && Owns(run)
      ensures if failed then |run.errors| == |old(run.errors)| + 1 else run.errors == old(run.errors)
      ensures var (s', r) := DecisionHandoff.AttachOn(
          old(handoff.View()), run.tenant, run.request.decisionFile, old(run.expectedHash), compiled);
        && handoff.View() == s' && (failed <==> !r.Success?)
        && (failed ==>
              run.errors == old(run.errors) + [Plain(
                if r.error in {DocumentChanged, NotDraft, ClaimReferenceNotFound, DecisionNotFound}
                then NamedHandoffError(r.error) else EvidenceHandoffRejected)])
        && (!failed ==>
              run.expectedHash == HashOfDocument(r.value)
              && run.compiledDecisionFile == Some(run.request.decisionFile))
      ensures !failed && AllCompiled(run.evidence, compiled) && AllClear(run.sources, run.evidence, run.snapshots) ==>
                run.compiledDecisionFile == Some(run.request.decisionFile)
                  && InFile(handoff.View(), (run.tenant, run.request.decisionFile), run.evidence)
    {
      var attached := AttachTo(run, compiled);
      if attached.Failure? {
        var error := attached.error;
        var named := error.DocumentChanged? || error.NotDraft? || error.ClaimReferenceNotFound?
          || error.DecisionNotFound?;
        RecordError(run, Plain(if named then NamedHandoffError(error) else EvidenceHandoffRejected));
        return true;
      }
      run.expectedHash := HashOfDocument(attached.value);
      run.compiledDecisionFile := Some(run.request.decisionFile);
      return false;
    }

    predicate Finished(status: ResearchStatus) {
      status.Failed? || status.PartiallyCompleted? || status.Completed?
    }

    /**
     What the run leaves in the decision files: nothing without a page or an eligible item; else one attach of exactly
     the eligible items from the expected version, and a refusal leaves the run PARTIALLY_COMPLETED.
     */
    ghost predicate Delivered(s: DecisionHandoff.Store, s': DecisionHandoff.Store, expected: DocHash, after: RunData) {
      if after.snapshots == [] then s' == s
      else exists compiled :: CompiledFrom(after, compiled) && DeliveredAll(s, s', expected, after, compiled)
    }

    ghost predicate DeliveredAll(
      s: DecisionHandoff.Store, s': DecisionHandoff.Store, expected: DocHash, after: RunData,
      compiled: seq<DecisionEvidence>)
    {
      if compiled == [] then s' == s
      else
        var (t, r) := DecisionHandoff.AttachOn(s, after.tenant, after.request.decisionFile, expected, compiled);
        && s' == t
        && if r.Success? then
             after.attachedTo == Some(after.request.decisionFile) && after.expectedHash == HashOfDocument(r.value)
           else after.status == PartiallyCompleted
    }

    method Conclude(run: ResearchRun, actor: Id, compiled: seq<DecisionEvidence>, failed: bool)
      requires Valid() && Owns(run) && run.status == EvidenceCompiled && NoneOpen(run.sources) && run.sources != []
               && run.evidence != []
      requires NonePartial(run.sources) ==> AllClear(run.sources, run.evidence, run.snapshots)
      requires !failed && NonePartial(run.sources) ==>
                 run.compiledDecisionFile == Some(run.request.decisionFile)
                   && InFile(handoff.View(), (run.tenant, run.request.decisionFile), run.evidence)
      modifies repository`runs, repository`events, run`status, run`updatedAt, run`auditEvents
      ensures Valid() && Owns(run) && Saved(run)
      ensures run.status == if !failed && NonePartial(run.sources) then Completed else PartiallyCompleted
      ensures Others(run.Key()) == old(Others(run.Key()))
    {
      hide Valid, Owns, Others, Saved, AllClear, InFile;
      var partial := failed || !NonePartial(run.sources);
      MoveAndSave(run, if partial then PartiallyCompleted else Completed, false, actor, |compiled|);
    }

    /** Nothing compiled, nothing to do; else one attach, and what it leaves in the run. */
    ghost predicate HandedOver(
      s: DecisionHandoff.Store, s': DecisionHandoff.Store, before: RunData, after: RunData,
      compiled: seq<DecisionEvidence>, failed: bool)
    {
      if compiled == [] then s' == s && !failed
      else
        var (t, r) :=
          DecisionHandoff.AttachOn(s, before.tenant, before.request.decisionFile, before.expectedHash, compiled);
        && s' == t && (failed <==> !r.Success?)
        && (r.Success? ==>
              after.attachedTo == Some(before.request.decisionFile) && after.expectedHash == HashOfDocument(r.value))
    }

    /** Hand over what was compiled, if anything, unless the work is cancelled first. */
    method HandOverCompiled(run: ResearchRun, compiled: seq<DecisionEvidence>) returns (failed: bool, stopped: bool)
      requires Valid() && Owns(run)
      modifies handoff, run`expectedHash, run`compiledDecisionFile, run`errors
      modifies cancellation
      ensures stopped ==> cancellation.seen
      ensures Valid() && Owns(run)
      ensures failed ==> run.errors != old(run.errors)
      ensures !failed ==> run.errors == old(run.errors)
      ensures !stopped ==>
                HandedOver(old(handoff.View()), handoff.View(), old(run.Data()), run.Data(), compiled, failed)
      ensures !stopped && !failed && compiled != [] && AllCompiled(run.evidence, compiled)
              && AllClear(run.sources, run.evidence, run.snapshots) ==>
                run.compiledDecisionFile == Some(run.request.decisionFile)
                && InFile(handoff.View(), (run.tenant, run.request.decisionFile), run.evidence)
    {
      hide Valid, Owns, AllClear, InFile, AllCompiled, DecisionHandoff.AttachOn;
      failed, stopped := false, false;
      if compiled != [] {
        stopped := IsCancelled();
        if stopped {
          return false, true;
        }
        failed := HandOver(run, compiled);
      }
    }

    method MoveAndCompile(run: ResearchRun, actor: Id) returns (compiled: seq<DecisionEvidence>)
      requires Owns(run) && run.status == Extracting && NoneOpen(run.sources) && run.snapshots != []
      modifies run`status, run`updatedAt, run`auditEvents, run`evidence, run`sources
      ensures Owns(run) && run.status == EvidenceCompiled && NoneOpen(run.sources)
      ensures run.sources != [] && run.evidence != [] && SameSources(old(run.sources), run.sources)
      ensures AllCompiled(run.evidence, compiled) && CompiledFrom(run.Data(), compiled)
      ensures NonePartial(run.sources) ==> AllClear(run.sources, run.evidence, run.snapshots)
    {
      hide Owns, AllClear, AllCompiled, CompiledFrom, SameSources, MarkedFrom, NonePartial, NoneOpen;
      Move(run, EvidenceCompiled, false, actor, |run.evidence|);
      compiled := MarkAndCompile(run);
    }

    method CompileAndHandOver(run: ResearchRun, actor: Id) returns (o: Outcome<()>)
      requires Valid() && Owns(run) && run.status == Extracting && NoneOpen(run.sources) && run.snapshots != []
      modifies repository`runs, repository`events, handoff
      modifies run`status, run`updatedAt, run`auditEvents, run`errors, run`evidence, run`sources
      modifies run`expectedHash, run`compiledDecisionFile
      modifies cancellation
      ensures o.Stopped? ==> cancellation.seen
      ensures Valid() && Owns(run) && !o.Raised?
      ensures o.Returned? ==> Saved(run) && (run.status.Completed? || run.status.PartiallyCompleted?)
      ensures o.Returned? ==> (run.status.Completed? <==> run.errors == old(run.errors) && NonePartial(run.sources))
      ensures SameSources(old(run.sources), run.sources)
      ensures o.Returned? ==> Delivered(old(handoff.View()), handoff.View(), old(run.expectedHash), run.Data())
      ensures Others(run.Key()) == old(Others(run.Key()))
    {
      hide Valid, Owns, Others, Saved, AllClear, InFile, AllCompiled, CompiledFrom, SameSources, MarkedFrom, Delivered,
           HandedOver, NonePartial;
      var compiled := MoveAndCompile(run, actor);
      ghost var marked := run.Data();
      var failed, stopped := HandOverCompiled(run, compiled);
      if stopped {
        return Stopped;
      }
      var stop := IsCancelled();
      if stop {
        return Stopped;
      }
      if NonePartial(run.sources) {
        ClearIsCompiled(run.sources, run.evidence, run.snapshots, compiled);
      }
      ghost var handed := run.Data();
      Conclude(run, actor, compiled, failed);
      DeliversAll(old(handoff.View()), handoff.View(), marked, handed, run.Data(), compiled, failed);
      return Returned(());
    }

    lemma DeliversAll(
      s: DecisionHandoff.Store, s': DecisionHandoff.Store, marked: RunData, handed: RunData, after: RunData,
      compiled: seq<DecisionEvidence>, failed: bool)
      requires CompiledFrom(marked, compiled) && after.snapshots != []
      requires HandedOver(s, s', marked, handed, compiled, failed)
      requires handed == marked.(errors := handed.errors, expectedHash := handed.expectedHash,
                                 attachedTo := handed.attachedTo)
      requires after == handed.(status := after.status, updatedAt := after.updatedAt, audit := after.audit)
      requires failed ==> after.status == PartiallyCompleted
      ensures Delivered(s, s', marked.expectedHash, after)
    {
      hide DecisionHandoff.AttachOn, Eligible, Holds;
      assert CompiledFrom(after, compiled);
      assert DeliveredAll(s, s', marked.expectedHash, after, compiled);
    }

    /** Nothing extracted: citations are a partial result, and nothing at all is a failure. */
    method EndWithoutPages(run: ResearchRun, actor: Id)
      requires Valid() && Owns(run) && run.status == Extracting && NoneOpen(run.sources) && run.snapshots == []
      modifies repository`runs, repository`events, run`status, run`updatedAt, run`auditEvents, run`errors
      ensures Valid() && Owns(run) && Saved(run)
      ensures run.status == if HasCitation(run.sources) then PartiallyCompleted else Failed
      ensures SameSources(old(run.sources), run.sources)
      ensures Delivered(old(handoff.View()), handoff.View(), old(run.expectedHash), run.Data())
      ensures Others(run.Key()) == old(Others(run.Key()))
    {
      SameAsItself(run.sources);
      NothingDelivered(handoff.View(), run.expectedHash);
      hide Valid, Owns, Others, Saved, Complete, Delivered, SameSources;
      if HasCitation(run.sources) {
        MoveAndSave(run, PartiallyCompleted, false, actor, |run.sources|);
      } else {
        FailRun(run, actor, None);
      }
    }

    /** From the extracted pages to the final status; COMPLETED only when all is clear and all is handed over. */
    lemma NothingDelivered(s: DecisionHandoff.Store, expected: DocHash)
      ensures forall after: RunData :: after.snapshots == [] ==> Delivered(s, s, expected, after)
    {
      hide CompiledFrom, DeliveredAll;
    }

    method Finalize(run: ResearchRun, actor: Id) returns (o: Outcome<()>)
      requires Valid() && Owns(run) && run.status == Extracting && NoneOpen(run.sources)
      modifies repository`runs, repository`events, handoff
      modifies run`status, run`updatedAt, run`auditEvents, run`errors, run`evidence, run`sources
      modifies run`expectedHash, run`compiledDecisionFile
      modifies cancellation
      ensures o.Stopped? ==> cancellation.seen
      ensures Valid() && Owns(run) && !o.Raised?
      ensures o.Returned? ==> Saved(run) && Finished(run.status)
      ensures o.Returned? ==> (run.status.Failed? <==> run.snapshots == [] && !HasCitation(old(run.sources)))
      ensures o.Returned? ==>
                (run.status.Completed? <==>
                 run.snapshots != [] && run.errors == old(run.errors) && NonePartial(run.sources))
      ensures SameSources(old(run.sources), run.sources)
      ensures o.Returned? ==> Delivered(old(handoff.View()), handoff.View(), old(run.expectedHash), run.Data())
      ensures Others(run.Key()) == old(Others(run.Key()))
    {
      SameAsItself(run.sources);
      hide Valid, Owns, Others, Saved, Complete, Delivered, SameSources, NonePartial, HasCitation;
      var stop := IsCancelled();
      if stop {
        return Stopped;
      }
      if run.snapshots == [] {
        EndWithoutPages(run, actor);
        return Returned(());
      }
      o := CompileAndHandOver(run, actor);
    }

    method StartExtraction(run: ResearchRun, actor: Id, retry: bool)
      requires Valid() && Owns(run) && Transition(run.status, Extracting, retry).Success?
      modifies repository`runs, repository`events, run`status, run`updatedAt, run`auditEvents
      ensures Valid() && Owns(run) && run.status == Extracting
      ensures Others(run.Key()) == old(Others(run.Key()))
    {
      MoveAndSave(run, Extracting, retry, actor, run.request.maxSourcesToExtract);
    }

    /** What a first extraction works on, and what a retry does. */
    function Extractable(retryOnly: bool): set<SourceStatus> {
      if retryOnly then {FailedSource, CitationOnly} else {Discovered}
    }

    /**
     The extraction worked through the sources the selection chose, each with a page or without; the run keeps the pages
     that were the first with their content, and it only failed if there was nothing to extract and no page at all.
     */
    ghost predicate Ended(before: RunData, after: RunData, retryOnly: bool, pages: seq<Option<Snapshot>>) {
      && SameSources(before.sources, after.sources)
      && |pages| == |Select(before.sources, before.request.maxSourcesToExtract, Extractable(retryOnly))|
      && after.snapshots == before.snapshots + FirstPages(before.snapshots, pages)
      && (after.status == Failed ==> pages == [] && after.snapshots == [])
    }

    /** The search found nothing out, or what it found was extracted. */
    ghost predicate Searched(
      request: Request, known: seq<Snapshot>, after: RunData, found: Option<seq<SearchResult>>,
      pages: seq<Option<Snapshot>>)
    {
      match found
      case None => after.status == Failed && after.sources == [] && pages == [] && after.snapshots == known
      case Some(results) =>
        var sources := Discoveries(FirstResults(results, request.maxSearchResults));
        && SameSources(sources, after.sources)
        && |pages| == |Select(sources, request.maxSourcesToExtract, {Discovered})|
        && after.snapshots == known + FirstPages(known, pages)
        && (after.status == Failed ==> pages == [] && after.snapshots == [])
    }

    /** The chosen candidates; a first extraction skips the discovered sources that were not chosen. */
    method ChooseCandidates(run: ResearchRun, retryOnly: bool) returns (candidates: seq<nat>)
      requires Owns(run)
      requires if retryOnly then NoneOpen(run.sources) else DistinctDiscovered(run.sources)
      requires !retryOnly ==> forall k :: 0 <= k < |run.sources| ==>
               run.sources[k].status.Discovered? || run.sources[k].status.Blocked?
      modifies run`sources
      ensures Owns(run) && SameSources(old(run.sources), run.sources)
      ensures candidates == Select(old(run.sources), run.request.maxSourcesToExtract, Extractable(retryOnly))
      ensures forall m :: 0 <= m < |candidates| ==>
              candidates[m] < |run.sources| && Unsettled(run.sources[candidates[m]])
      ensures forall m, n :: 0 <= m < n < |candidates| ==> candidates[m] != candidates[n]
      ensures forall k :: 0 <= k < |run.sources| && Open(run.sources[k]) ==> k in candidates
    {
      hide Owns, Ranked, SameSources;
      candidates := Select(run.sources, run.request.maxSourcesToExtract, Extractable(retryOnly));
      SelectTakesTheFirst(run.sources, run.request.maxSourcesToExtract, Extractable(retryOnly));
      hide Select;
      SameAsItself(run.sources);
      if !retryOnly {
        SkipUnselected(run, candidates);
      }
    }

    method ExtractAndFinalize(run: ResearchRun, actor: Id, retryOnly: bool)
      returns (o: Outcome<()>, ghost pages: seq<Option<Snapshot>>)
      requires Valid() && Owns(run) && run.status == Extracting
      requires if retryOnly then NoneOpen(run.sources) else DistinctDiscovered(run.sources)
      requires !retryOnly ==> forall k :: 0 <= k < |run.sources| ==>
               run.sources[k].status.Discovered? || run.sources[k].status.Blocked?
      modifies this`calls, repository, handoff, run
      modifies cancellation
      ensures o.Stopped? ==> cancellation.seen
      ensures Valid() && Owns(run) && !o.Raised?
      ensures o.Returned? ==> Saved(run) && Finished(run.status)
      ensures o.Returned? ==> Ended(old(run.Data()), run.Data(), retryOnly, pages)
      ensures o.Returned? ==> Delivered(old(handoff.View()), handoff.View(), old(run.expectedHash), run.Data())
      ensures Others(run.Key()) == old(Others(run.Key()))
    {
      hide Valid, Owns, Others, Saved, Select, Worked, FirstPages, SameSources, Delivered, HasCitation, NonePartial;
      pages := [];
      ghost var before := run.Data();
      var stop := IsCancelled();
      if stop {
        return Stopped, pages;
      }
      var candidates := ChooseCandidates(run, retryOnly);
      ghost var started := run.Data();
      o, pages := ExtractSources(run, actor, candidates);
      if o.Returned? {
        ghost var worked := run.Data();
        PagesLeaveTraces(started, worked, candidates, pages);
        o := Finalize(run, actor);
        SourcesStaySame(before.sources, started.sources, worked.sources, run.sources);
      }
    }

    // -------------------------------------------------------------- the public calls

    function Proposal(tenant: Id, runId: Id, request: Request, expectedHash: DocHash, correlationId: Id, now: int)
      : RunData
    {
      RunData(runId, tenant, request, expectedHash, Created, now, correlationId, [], [], [], [], [], [], 0, None)
    }

    /** The row of a new run is sound. */
    method CreateOrGet(proposed: RunData) returns (run: ResearchRun)
      requires Valid() && proposed.request.Valid()
      requires proposed == Proposal(proposed.tenant, proposed.runId, proposed.request, proposed.expectedHash,
               proposed.correlationId, proposed.updatedAt)
      modifies this`calls, repository
      ensures Valid() && Owns(run) && Saved(run) && fresh(run)
      ensures run.Data() ==
              if run.Key() in old(repository.runs) then old(repository.runs)[run.Key()] else proposed
      ensures var key := run.Key(); Others(key) == old(Others(key))
    {
      ghost var key := proposed.Key();
      UpdateKeepsOthers(repository.runs, key, proposed);
      UpdateKeepsOthers(repository.used, key, 0);
      UpdateKeepsOthers(calls, key, 0);
      assert Kept(proposed, 0, policy) && Promised(handoff.View(), proposed);
      hide Kept, Promised, Converges;
      var d := repository.CreateOrGet(proposed);
      if repository.runs != old(repository.runs) {
        calls := calls[key := 0];
        forall k ensures RowInv(k, repository.runs, repository.events, repository.used, calls, policy, handoff.View()) {
          assert RowInv(k, old(repository.runs), old(repository.events), old(repository.used), old(calls), policy,
            handoff.View());
        }
        assert Valid();
      } else {
        assert repository.used == old(repository.used);
        assert Valid();
        var k :| k in repository.runs && repository.runs[k] == d;
        assert RowInv(k, repository.runs, repository.events, repository.used, calls, policy, handoff.View());
      }
      run := new ResearchRun.FromData(d);
    }

    /**
     A returned run is saved. Either it is a run that was already stored under way, unchanged, or this call carried
     it from CREATED to one of the three final statuses and left no source discovered or selected. Nothing is raised
     but the two limit checks, so no transition, save, lookup or provider budget ever fails unexpectedly. However the
     call ends, stopped or not, it touches at most one run: the one with its id, or a stored one it converges to.
     */
    method Execute(tenant: Id, runId: Id, request: Request, expectedHash: DocHash, correlationId: Id, actor: Id)
      returns (o: Outcome<ResearchRun>, ghost touched: (Id, Id), ghost found: Option<seq<SearchResult>>,
               ghost pages: seq<Option<Snapshot>>)
      requires Valid() && request.Valid()
      modifies this`calls, repository, handoff
      modifies cancellation
      ensures o.Stopped? ==> cancellation.seen
      ensures Valid()
      ensures touched == (tenant, runId) || touched in old(repository.runs)
      ensures Others(touched) == old(Others(touched))
      ensures o.Raised? ==> unchanged(this) && unchanged(repository) && unchanged(handoff)
      ensures o.Raised? ==>
              request.maxSearchResults > policy.maxSearchResults || request.maxSourcesToExtract > policy.maxExtractions
      ensures o.Returned? ==> o.value.Key() == touched && Saved(o.value)
      ensures o.Returned? ==>
                || (o.value.Key() in old(repository.runs) && o.value.Data() == old(repository.runs)[o.value.Key()])
                || (Finished(o.value.status) && NoneOpen(o.value.sources)
                    && Searched(o.value.request, [], o.value.Data(), found, pages)
                    && Delivered(old(handoff.View()), handoff.View(),
                                 if touched in old(repository.runs) then old(repository.runs)[touched].expectedHash
                                 else expectedHash, o.value.Data()))
    {
      hide Valid, Owns, Others, Searched, Delivered, NoneOpen;
      touched, found, pages := (tenant, runId), None, [];
      cancellation.seen := false;
      var stop := IsCancelled();
      if stop {
        return Stopped, touched, found, pages;
      }
      if request.maxSearchResults > policy.maxSearchResults {
        return Raised(SearchLimitExceeded), touched, found, pages;
      }
      if request.maxSourcesToExtract > policy.maxExtractions {
        return Raised(ExtractionLimitExceeded), touched, found, pages;
      }
      var now := Time();
      var run := CreateOrGet(Proposal(tenant, runId, request, expectedHash, correlationId, now));
      touched := run.Key();
      if run.auditEvents != [] || run.status != Created {
        return Returned(run), touched, found, pages;
      }
      NothingYet(run);
      var done;
      done, found, pages := RunFromCreated(run, actor);
      o := if done.Returned? then Returned(run) else Stopped;
      if done.Returned? {
        SavedIsSettled(run);
      }
    }

    lemma NothingYet(run: ResearchRun)
      requires Owns(run) && run.auditEvents == []
      ensures run.sources == [] && run.snapshots == []
    {
      NoSourcesNoPages(run);
    }

    lemma NoSourcesNoPages(run: ResearchRun)
      requires Owns(run) && run.sources == []
      ensures run.snapshots == []
    {
      if run.snapshots != [] {
        SnapshotHasSource(run.Data());
      }
    }

    lemma SavedIsSettled(run: ResearchRun)
      requires Valid() && Saved(run) && Finished(run.status)
      ensures NoneOpen(run.sources)
    {
      assert RowInv(run.Key(), repository.runs, repository.events, repository.used, calls, policy, handoff.View());
    }

    method RunFromCreated(run: ResearchRun, actor: Id)
      returns (o: Outcome<()>, ghost found: Option<seq<SearchResult>>, ghost pages: seq<Option<Snapshot>>)
      requires Valid() && Owns(run) && run.auditEvents == [] && run.status == Created
      modifies this`calls, repository, handoff, run
      modifies cancellation
      ensures o.Stopped? ==> cancellation.seen
      ensures Valid() && !o.Raised?
      ensures o.Returned? ==> Saved(run) && Finished(run.status)
      ensures o.Returned? ==> Searched(run.request, old(run.snapshots), run.Data(), found, pages)
      ensures o.Returned? ==> Delivered(old(handoff.View()), handoff.View(), old(run.expectedHash), run.Data())
      ensures Others(run.Key()) == old(Others(run.Key()))
    {
      found, pages := None, [];
      var stop := IsCancelled();
      if stop {
        return Stopped, found, pages;
      }
      assert run.sources == [];
      hide Valid, Owns, Others, Saved, Searched, Delivered, Complete;
      MoveAndSave(run, Searching, false, actor, 0);
      o, found, pages := SearchAndExtract(run, actor);
    }

    lemma NothingFound(request: Request, after: RunData)
      requires after.status == Failed && after.sources == []
      ensures Searched(request, after.snapshots, after, None, [])
    {
    }

    lemma EndedIsSearched(
      before: RunData, after: RunData, results: seq<SearchResult>, pages: seq<Option<Snapshot>>)
      requires Ended(before, after, false, pages)
      requires before.sources == Discoveries(FirstResults(results, before.request.maxSearchResults))
      ensures Searched(before.request, before.snapshots, after, Some(results), pages)
    {
      hide Discoveries, FirstResults, FirstPages, Select, SameSources;
    }

    /** What the search found is extracted. */
    method ExtractDiscovered(run: ResearchRun, actor: Id, ghost results: seq<SearchResult>)
      returns (o: Outcome<()>, ghost pages: seq<Option<Snapshot>>)
      requires Valid() && Owns(run) && run.status == SourcesDiscovered && DistinctDiscovered(run.sources)
      requires forall k :: 0 <= k < |run.sources| ==>
               run.sources[k].status.Discovered? || run.sources[k].status.Blocked?
      requires run.sources == Discoveries(FirstResults(results, run.request.maxSearchResults))
      modifies this`calls, repository, handoff, run
      modifies cancellation
      ensures o.Stopped? ==> cancellation.seen
      ensures Valid() && !o.Raised?
      ensures o.Returned? ==> Saved(run) && Finished(run.status)
      ensures o.Returned? ==> Searched(run.request, old(run.snapshots), run.Data(), Some(results), pages)
      ensures o.Returned? ==> Delivered(old(handoff.View()), handoff.View(), old(run.expectedHash), run.Data())
      ensures Others(run.Key()) == old(Others(run.Key()))
    {
      hide Valid, Owns, Others, Saved, Searched, Ended, Delivered, Discoveries, FirstResults, DistinctDiscovered,
           NoneOpen;
      StartExtraction(run, actor, false);
      ghost var started := run.Data();
      o, pages := ExtractAndFinalize(run, actor, false);
      if o.Returned? {
        EndedIsSearched(started, run.Data(), results, pages);
      }
    }

    method SearchAndExtract(run: ResearchRun, actor: Id)
      returns (o: Outcome<()>, ghost found: Option<seq<SearchResult>>, ghost pages: seq<Option<Snapshot>>)
      requires Valid() && Owns(run) && run.status == Searching && run.sources == []
      modifies this`calls, repository, handoff, run
      modifies cancellation
      ensures o.Stopped? ==> cancellation.seen
      ensures Valid() && !o.Raised?
      ensures o.Returned? ==> Saved(run) && Finished(run.status)
      ensures o.Returned? ==> Searched(run.request, old(run.snapshots), run.Data(), found, pages)
      ensures o.Returned? ==> Delivered(old(handoff.View()), handoff.View(), old(run.expectedHash), run.Data())
      ensures Others(run.Key()) == old(Others(run.Key()))
    {
      found, pages := None, [];
      NoSourcesNoPages(run);
      NothingDelivered(handoff.View(), run.expectedHash);
      hide Valid, Owns, Others, Saved, Searched, Delivered, Discoveries, FirstResults, DistinctDiscovered;
      var discovered;
      discovered, found := Discover(run, actor);
      if discovered.Stopped? {
        return Stopped, found, pages;
      }
      if !discovered.value {
        NothingFound(run.request, run.Data());
        return Returned(()), None, [];
      }
      var stop := IsCancelled();
      if stop {
        return Stopped, found, pages;
      }
      o, pages := ExtractDiscovered(run, actor, found.value);
    }

    /** A run without sources searches again; any other extracts again what failed or was only cited. */
    ghost predicate Retried(
      before: RunData, after: RunData, found: Option<seq<SearchResult>>, pages: seq<Option<Snapshot>>)
    {
      if before.sources == [] then Searched(before.request, before.snapshots, after, found, pages)
      else Ended(before, after, true, pages)
    }

    predicate Retryable(status: ResearchStatus) { status.Failed? || status.PartiallyCompleted? }

    /**
     Unless stopped, a retry is refused exactly for an unknown run, a run that is not FAILED or PARTIALLY_COMPLETED, or
     one inside its provider's retry window at the clock it reads; otherwise it ends in a final status with every source
     settled.
     */
    method Retry(key: (Id, Id), correlationId: Id, actor: Id)
      returns (o: Outcome<ResearchRun>, ghost clock: int, ghost found: Option<seq<SearchResult>>,
               ghost pages: seq<Option<Snapshot>>)
      requires Valid()
      modifies this`calls, repository, handoff
      modifies cancellation
      ensures o.Stopped? ==> cancellation.seen
      ensures Valid()
      ensures Others(key) == old(Others(key))
      ensures o.Raised? ==> unchanged(this) && unchanged(repository) && unchanged(handoff)
      ensures o == Raised(UnknownRun) <==> !o.Stopped? && key !in old(repository.runs)
      ensures o == Raised(RetryNotAllowed) <==>
                !o.Stopped? && key in old(repository.runs) && !Retryable(old(repository.runs)[key].status)
      ensures o == Raised(RetryAfterActive) <==>
                && !o.Stopped? && key in old(repository.runs) && Retryable(old(repository.runs)[key].status)
                && var until := RetryAt(old(repository.runs)[key].errors, old(repository.runs)[key].attempts);
                  until.Some? && clock < until.value
      ensures o.Raised? ==> o.error in {UnknownRun, RetryNotAllowed, RetryAfterActive}
      ensures o.Returned? ==>
              o.value.Key() == key && Saved(o.value) && Finished(o.value.status) && NoneOpen(o.value.sources)
      ensures o.Returned? ==> Retried(old(repository.runs)[key], o.value.Data(), found, pages)
      ensures o.Returned? ==> Delivered(old(handoff.View()), handoff.View(), old(repository.runs)[key].expectedHash,
              o.value.Data())
    {
      clock, found, pages := 0, None, [];
      cancellation.seen := false;
      var stop := IsCancelled();
      if stop {
        return Stopped, clock, found, pages;
      }
      if key !in repository.runs {
        return Raised(UnknownRun), clock, found, pages;
      }
      var d := repository.runs[key];
      if d.status != Failed && d.status != PartiallyCompleted {
        return Raised(RetryNotAllowed), clock, found, pages;
      }
      var until := RetryAt(d.errors, d.attempts);
      if until.Some? {
        var now := Time();
        clock := now;
        if now < until.value {
          return Raised(RetryAfterActive), clock, found, pages;
        }
      }
      hide Valid, Others;
      o, found, pages := RetryStored(key, correlationId, actor);
    }

    /** The retry of a run that may be retried. */
    method RetryStored(key: (Id, Id), correlationId: Id, actor: Id)
      returns (o: Outcome<ResearchRun>, ghost found: Option<seq<SearchResult>>, ghost pages: seq<Option<Snapshot>>)
      requires Valid() && key in repository.runs && Retryable(repository.runs[key].status)
      modifies this`calls, repository, handoff
      modifies cancellation
      ensures o.Stopped? ==> cancellation.seen
      ensures Valid() && !o.Raised?
      ensures Others(key) == old(Others(key))
      ensures o.Returned? ==>
              o.value.Key() == key && Saved(o.value) && Finished(o.value.status) && NoneOpen(o.value.sources)
      ensures o.Returned? ==> Retried(old(repository.runs)[key], o.value.Data(), found, pages)
      ensures o.Returned? ==> Delivered(old(handoff.View()), handoff.View(), old(repository.runs)[key].expectedHash,
              o.value.Data())
    {
      assert RowInv(key, repository.runs, repository.events, repository.used, calls, policy, handoff.View());
      var run := new ResearchRun.FromData(repository.runs[key].(correlationId := correlationId));
      assert Owns(run) && NoneOpen(run.sources) && (run.status.PartiallyCompleted? ==> run.sources != []);
      hide Valid, Owns, Others, Promised, Sound;
      var done;
      done, found, pages := RetryRun(run, actor);
      if done.Stopped? {
        return Stopped, found, pages;
      }
      SavedIsSettled(run);
      return Returned(run), found, pages;
    }

    method RetryRun(run: ResearchRun, actor: Id)
      returns (o: Outcome<()>, ghost found: Option<seq<SearchResult>>, ghost pages: seq<Option<Snapshot>>)
      requires Valid() && Owns(run) && NoneOpen(run.sources)
      requires run.status.Failed? || (run.status.PartiallyCompleted? && run.sources != [])
      modifies this`calls, repository, handoff, run
      modifies cancellation
      ensures o.Stopped? ==> cancellation.seen
      ensures Valid() && !o.Raised?
      ensures o.Returned? ==> Saved(run) && Finished(run.status)
      ensures o.Returned? ==> Retried(old(run.Data()), run.Data(), found, pages)
      ensures o.Returned? ==> Delivered(old(handoff.View()), handoff.View(), old(run.expectedHash), run.Data())
      ensures Others(run.Key()) == old(Others(run.Key()))
    {
      hide Valid, Owns, Others, Saved;
      if run.sources == [] {
        MoveAndSave(run, Searching, true, actor, 0);
        o, found, pages := SearchAndExtract(run, actor);
      } else {
        StartExtraction(run, actor, true);
        found := None;
        o, pages := ExtractAndFinalize(run, actor, true);
      }
    }

    /** Cancelling is refused exactly for an unknown or a COMPLETED run; otherwise the saved run is cancelled. */
    method Cancel(key: (Id, Id), correlationId: Id, actor: Id) returns (o: Outcome<ResearchRun>)
      requires Valid()
      modifies repository
      ensures Valid() && !o.Stopped?
      ensures Others(key) == old(Others(key))
      ensures o == Raised(UnknownRun) <==> key !in old(repository.runs)
      ensures o == Raised(AlreadyCompleted) <==>
              key in old(repository.runs) && old(repository.runs)[key].status.Completed?
      ensures o.Raised? ==> unchanged(repository) && (o.error.UnknownRun? || o.error.AlreadyCompleted?)
      ensures o.Returned? ==> o.value.Key() == key && Saved(o.value) && o.value.status.Cancelled?
      ensures o.Returned? ==>
              && o.value.evidence == old(repository.runs)[key].evidence
              && old(repository.runs)[key].audit <= o.value.auditEvents
      ensures o.Returned? ==>
                var d := old(repository.runs)[key];
                if d.status.Cancelled? then o.value.Data() == d && unchanged(repository)
                else
                  o.value.Data() == d.(status := Cancelled, correlationId := correlationId,
                                       updatedAt := o.value.updatedAt, audit := o.value.auditEvents)
                  && MovedBy(d.audit, o.value.auditEvents, d.status, Cancelled, actor, 0)
    {
      if key !in repository.runs {
        return Raised(UnknownRun);
      }
      assert RowInv(key, repository.runs, repository.events, repository.used, calls, policy, handoff.View());
      var d := repository.runs[key];
      if d.status.Cancelled? {
        var same := new ResearchRun.FromData(d);
        return Returned(same);
      }
      if d.status.Completed? {
        return Raised(AlreadyCompleted);
      }
      var run := new ResearchRun.FromData(d.(correlationId := correlationId));
      assert Owns(run);
      hide Valid, Others, Promised, Sound;
      MoveAndSave(run, Cancelled, false, actor, 0);
      return Returned(run);
    }

    predicate Handable(d: RunData) {
      d.attachedTo.None? && (d.status.EvidenceCompiled? || d.status.Completed? || d.status.PartiallyCompleted?)
    }

    predicate SomeEligible(d: RunData) {
      exists i :: 0 <= i < |d.evidence| && Eligible(d.evidence[i])
    }

    /**
     A late handoff converges: an attached run comes back as it is stored, and otherwise everything eligible is put in
     the decision file. It is refused exactly for an unknown run, one that is not finished with evidence, one with no
     eligible item, or by the decision file's own rules; a refusal changes nothing that is stored.
     */
    method Handoff(key: (Id, Id), correlationId: Id, actor: Id) returns (o: Outcome<ResearchRun>)
      requires Valid()
      modifies repository, handoff
      ensures Valid() && !o.Stopped?
      ensures Others(key) == old(Others(key))
      ensures o == Raised(UnknownRun) <==> key !in old(repository.runs)
      ensures key in old(repository.runs) && old(repository.runs)[key].attachedTo.Some? ==>
                o.Returned? && o.value.Data() == old(repository.runs)[key] && unchanged(repository)
                  && unchanged(handoff)
      ensures o == Raised(NotReadyForHandoff) <==>
                key in old(repository.runs) && old(repository.runs)[key].attachedTo.None?
                  && !Handable(old(repository.runs)[key])
      ensures o == Raised(NothingToHandOff) <==>
                key in old(repository.runs) && Handable(old(repository.runs)[key])
                  && !SomeEligible(old(repository.runs)[key])
      ensures o.Raised? && o.error.HandoffRejected? ==>
                key in old(repository.runs) && Handable(old(repository.runs)[key])
                  && SomeEligible(old(repository.runs)[key])
      ensures o.Raised? ==>
              || o.error.UnknownRun? || o.error.NotReadyForHandoff? || o.error.NothingToHandOff?
              || o.error.HandoffRejected?
      ensures o.Raised? ==> unchanged(repository) && unchanged(handoff)
      ensures o.Returned? ==> o.value.Key() == key && Saved(o.value) && o.value.compiledDecisionFile.Some?
      ensures o.Returned? && old(repository.runs)[key].attachedTo.None? ==>
                o.value.evidence == old(repository.runs)[key].evidence && EligibleInFile(o.value)
      ensures key in old(repository.runs) && Handable(old(repository.runs)[key])
              && SomeEligible(old(repository.runs)[key]) ==>
                HandsOff(old(handoff.View()), handoff.View(), old(repository.runs)[key], correlationId,
                         if o.Returned? then Success(o.value.Data()) else Failure(o.error))
    {
      if key !in repository.runs {
        return Raised(UnknownRun);
      }
      hide Valid, Owns, Others, Kept, Sound, Eligible;
      SavedKey(key);
      var d := repository.runs[key];
      var run := new ResearchRun.FromData(d);
      if run.compiledDecisionFile.Some? {
        return Returned(run);
      }
      if !(run.status.EvidenceCompiled? || run.status.Completed? || run.status.PartiallyCompleted?) {
        return Raised(NotReadyForHandoff);
      }
      o := HandOverStored(run, correlationId);
    }

    /**
     One attach of exactly the eligible items, from the version the run expects: the file's refusal, or the run attached
     and expecting the file as it is now.
     */
    ghost predicate HandsOff(
      s: DecisionHandoff.Store, s': DecisionHandoff.Store, d: RunData, correlationId: Id,
      result: Result<RunData, ResearchError>)
    {
      exists compiled ::
        CompiledFrom(d, compiled) && compiled != [] && HandsOffAll(s, s', d, correlationId, result, compiled)
    }

    ghost predicate HandsOffAll(
      s: DecisionHandoff.Store, s': DecisionHandoff.Store, d: RunData, correlationId: Id,
      result: Result<RunData, ResearchError>, compiled: seq<DecisionEvidence>)
    {
      var (t, r) := DecisionHandoff.AttachOn(s, d.tenant, d.request.decisionFile, d.expectedHash, compiled);
      if r.Success? then
        && s' == t
        && result == Success(d.(correlationId := correlationId, expectedHash := HashOfDocument(r.value),
                                attachedTo := Some(d.request.decisionFile)))
      else s' == s && result == Failure(HandoffRejected(r.error))
    }

    /** The handoff of a stored run that is ready for it. */
    method HandOverStored(run: ResearchRun, correlationId: Id) returns (o: Outcome<ResearchRun>)
      requires Valid() && Saved(run) && Handable(run.Data())
      modifies repository`runs, repository`events, handoff
      modifies run`expectedHash, run`compiledDecisionFile, run`correlationId
      ensures Valid() && Others(run.Key()) == old(Others(run.Key()))
      ensures o.Returned? || (o.Raised? && (o.error.NothingToHandOff? || o.error.HandoffRejected?))
      ensures o == Raised(NothingToHandOff) <==> !SomeEligible(old(run.Data()))
      ensures o.Raised? ==> unchanged(repository) && unchanged(handoff)
      ensures o.Returned? ==> o.value == run && Saved(run) && run.compiledDecisionFile.Some?
      ensures o.Returned? ==> EligibleInFile(run)
      ensures SomeEligible(old(run.Data())) ==>
                HandsOff(old(handoff.View()), handoff.View(), old(run.Data()), correlationId,
                         if o.Returned? then Success(run.Data()) else Failure(o.error))
    {
      hide Valid, Owns, Others, Kept, Sound, Eligible, EligibleInFile, CompiledFrom, HandsOffAll, AllCompiled;
      ghost var d := run.Data();
      UnattachedIsPartial(run);
      var compiled := CompileRun(run);
      NothingCompiledExactly(d, compiled);
      if compiled == [] {
        return Raised(NothingToHandOff);
      }
      Correlate(run, correlationId);
      o := AttachAndSave(run, compiled);
      CorrelationStays(old(handoff.View()), handoff.View(), d, correlationId,
                       if o.Returned? then Success(run.Data()) else Failure(o.error), compiled);
    }

    lemma CorrelationStays(
      s: DecisionHandoff.Store, s': DecisionHandoff.Store, d: RunData, correlationId: Id,
      result: Result<RunData, ResearchError>, compiled: seq<DecisionEvidence>)
      requires HandsOffAll(s, s', d.(correlationId := correlationId), correlationId, result, compiled)
      ensures HandsOffAll(s, s', d, correlationId, result, compiled)
    {
    }

    method Correlate(run: ResearchRun, correlationId: Id)
      requires Owns(run)
      modifies run`correlationId
      ensures Owns(run) && run.correlationId == correlationId
    {
      run.correlationId := correlationId;
    }

    /** Every eligible item of the run is in the decision file it was made for. */
    predicate EligibleInFile(run: ResearchRun)
      reads run, handoff
    {
      && (run.tenant, run.request.decisionFile) in handoff.documents
      && forall i :: 0 <= i < |run.evidence| && Eligible(run.evidence[i]) ==>
           run.evidence[i].id
           in DecisionHandoff.IdsOf(handoff.documents[(run.tenant, run.request.decisionFile)].evidence)
    }

    lemma NothingCompiledExactly(d: RunData, compiled: seq<DecisionEvidence>)
      requires AllCompiled(d.evidence, compiled) && (compiled != [] ==> SomeEligible(d))
      ensures compiled == [] <==> !SomeEligible(d)
    {
      if i :| 0 <= i < |d.evidence| && Eligible(d.evidence[i]) {
        assert HasId(compiled, d.evidence[i].id);
      }
    }

    lemma SavedKey(key: (Id, Id))
      requires Valid() && key in repository.runs
      ensures repository.runs[key].Key() == key
    {
      assert RowInv(key, repository.runs, repository.events, repository.used, calls, policy, handoff.View());
    }

    /** A saved run that is finished with evidence and not attached is PARTIALLY_COMPLETED. */
    lemma UnattachedIsPartial(run: ResearchRun)
      requires Valid() && Saved(run) && run.compiledDecisionFile.None?
      requires run.status.EvidenceCompiled? || run.status.Completed? || run.status.PartiallyCompleted?
      ensures run.status.PartiallyCompleted? && Owns(run) && Sound(run.Data()) && NoneOpen(run.sources)
              && run.sources != []
    {
      assert RowInv(run.Key(), repository.runs, repository.events, repository.used, calls, policy, handoff.View());
    }

    method AttachAndSave(run: ResearchRun, compiled: seq<DecisionEvidence>) returns (o: Outcome<ResearchRun>)
      requires Valid() && Owns(run) && run.status.PartiallyCompleted? && NoneOpen(run.sources) && run.sources != []
      requires AllCompiled(run.evidence, compiled)
      modifies repository`runs, repository`events, handoff, run`expectedHash, run`compiledDecisionFile
      ensures Valid() && Others(run.Key()) == old(Others(run.Key()))
      ensures o.Returned? || (o.Raised? && o.error.HandoffRejected? && unchanged(repository) && unchanged(handoff))
      ensures o.Returned? ==> o.value == run && Saved(run) && run.compiledDecisionFile.Some?
      ensures o.Returned? ==> EligibleInFile(run)
      ensures o.Returned? || o.Raised?
      ensures HandsOffAll(old(handoff.View()), handoff.View(), old(run.Data()), run.correlationId,
                          if o.Returned? then Success(run.Data()) else Failure(o.error), compiled)
    {
      hide Valid, Others;
      var attached := AttachTo(run, compiled);
      if attached.Failure? {
        return Raised(HandoffRejected(attached.error));
      }
      run.expectedHash := HashOfDocument(attached.value);
      run.compiledDecisionFile := Some(run.request.decisionFile);
      Store(run);
      return Returned(run);
    }

    // -------------------------------------------------------------- what the store then guarantees

    /** A stored COMPLETED run, read out in full. */
    lemma CompletedMeans(key: (Id, Id))
      requires Valid() && key in repository.runs && repository.runs[key].status.Completed?
      ensures FullyComplete(handoff.View(), repository.runs[key])
    {
      assert RowInv(key, repository.runs, repository.events, repository.used, calls, policy, handoff.View());
      hide Valid, Sound, Promised, FullyComplete;
      CompletedReadsOut(handoff.View(), repository.runs[key]);
    }

    /** Whatever happened so far: calls within reserved units within the budget, and attempts within both limits. */
    lemma SpendingIsBounded(key: (Id, Id), operation: Operation, source: Option<SourceId>)
      requires Valid() && key in repository.runs
      ensures key in calls && key in repository.used
      ensures calls[key] <= repository.used[key] <= policy.budget
      ensures |repository.runs[key].attempts| <= repository.runs[key].costUnits <= repository.used[key]
      ensures Tries(repository.runs[key].attempts, operation, source) <= policy.maxAttempts
    {
      assert RowInv(key, repository.runs, repository.events, repository.used, calls, policy, handoff.View());
      assert Kept(repository.runs[key], repository.used[key], policy);
    }

    /** A stored run's log replays to its status, and its pages and items stay distinct and matched one to one. */
    lemma StoredRunIsSound(key: (Id, Id))
      requires Valid() && key in repository.runs
      ensures Replay(repository.runs[key].audit) == Some(repository.runs[key].status)
      ensures Matched(repository.runs[key].evidence, repository.runs[key].snapshots)
    {
      assert RowInv(key, repository.runs, repository.events, repository.used, calls, policy, handoff.View());
      hide Valid, Sound, Promised, Matched;
      SoundReadsOut(repository.runs[key]);
    }
  }
}
