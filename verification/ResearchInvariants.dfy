/** What the research store keeps of every saved run, and why it stays so. */
module ResearchInvariants {
  import opened Wrappers
  import opened DecisionContracts
  import opened ResearchContracts
  import opened ResearchAudit
  import opened EvidenceRules
  import opened ResearchCompiler
  import opened ResearchStore
  import DecisionHandoff

  datatype ResearchPolicy = ResearchPolicy(
    budget: nat, maxAttempts: nat, maxSearchResults: nat, maxExtractions: nat, evidence: EvidencePolicy)

  // ---------------------------------------------------------------- what the store keeps

  function Tries(attempts: seq<Attempt>, operation: Operation, source: Option<SourceId>): nat {
    if attempts == [] then 0
    else
      var last := attempts[|attempts| - 1];
      Tries(attempts[..|attempts| - 1], operation, source)
        + if last.operation == operation && last.source == source then 1 else 0
  }

  ghost predicate TriesWithin(attempts: seq<Attempt>, limit: nat) {
    forall operation, source :: Tries(attempts, operation, source) <= limit
  }

  /** Every item is in the decision file. */
  predicate InFile(s: DecisionHandoff.Store, file: (Id, Id), evidence: seq<Evidence>) {
    && file in s.documents
    && forall i :: 0 <= i < |evidence| ==> evidence[i].id in DecisionHandoff.IdsOf(s.documents[file].evidence)
  }

  /** Every source is done with, every item is usable and unsuspected, and no page contradicts another. */
  predicate AllClear(sources: seq<Source>, evidence: seq<Evidence>, snapshots: seq<Snapshot>) {
    && (forall k :: 0 <= k < |sources| ==>
          sources[k].status.Extracted? || sources[k].status.DuplicateContent? || sources[k].status.SkippedLimit?)
    && (forall i :: 0 <= i < |evidence| ==>
          && evidence[i].assessment.usable
          && !evidence[i].risk.injectionSuspected
          && evidence[i].assessment.conflict.NotChecked?)
    && (forall i, j :: 0 <= i < j < |snapshots| ==> !Contradicts(snapshots[i].text, snapshots[j].text))
  }

  /** What a COMPLETED run stands for. */
  predicate Complete(s: DecisionHandoff.Store, d: RunData) {
    && AllClear(d.sources, d.evidence, d.snapshots)
    && d.evidence != []
    && d.attachedTo == Some(d.request.decisionFile)
    && InFile(s, (d.tenant, d.request.decisionFile), d.evidence)
  }

  /** What each status promises about a saved run. */
  predicate Promised(s: DecisionHandoff.Store, d: RunData) {
    && !d.status.EvidenceCompiled?
    && (d.status.Failed? || d.status.PartiallyCompleted? || d.status.Completed? ==> NoneOpen(d.sources))
    && (d.status.PartiallyCompleted? ==> d.sources != [])
    && (d.status.Completed? ==> Complete(s, d))
  }

  ghost predicate Kept(d: RunData, used: nat, policy: ResearchPolicy) {
    && Sound(d)
    && d.costUnits <= used
    && TriesWithin(d.attempts, policy.maxAttempts)
  }

  ghost predicate RowInv(key: (Id, Id), runs: map<(Id, Id), RunData>, events: map<(Id, Id), seq<AuditEvent>>,
                         used: map<(Id, Id), nat>, calls: map<(Id, Id), nat>, policy: ResearchPolicy,
                         s: DecisionHandoff.Store)
  {
    if key !in runs then EventsAt(events, key) == []
    else
      && key in used && key in calls
      && EventsAt(events, key) == runs[key].audit
      && runs[key].Key() == key
      && calls[key] <= used[key] <= policy.budget
      && Kept(runs[key], used[key], policy)
      && Promised(s, runs[key])
  }

  lemma UpdateKeepsOthers<V>(m: map<(Id, Id), V>, key: (Id, Id), v: V)
    ensures m[key := v] - {key} == m - {key}
  {
  }

  // ---------------------------------------------------------------- small facts about attempts

  lemma {:induction false} TriesAppend(attempts: seq<Attempt>, a: Attempt, limit: nat)
    requires TriesWithin(attempts, limit) && Tries(attempts, a.operation, a.source) < limit
    ensures TriesWithin(attempts + [a], limit)
  {
    forall operation, source ensures Tries(attempts + [a], operation, source) <= limit {
      assert (attempts + [a])[..|attempts|] == attempts;
      assert Tries(attempts, operation, source) <= limit;
    }
  }

  lemma {:induction false} TriesRelabel(attempts: seq<Attempt>, status: AttemptStatus, limit: nat)
    requires TriesWithin(attempts, limit) && attempts != []
    ensures TriesWithin(attempts[|attempts| - 1 := attempts[|attempts| - 1].(status := status)], limit)
  {
    var last := |attempts| - 1;
    var after := attempts[last := attempts[last].(status := status)];
    forall operation, source ensures Tries(after, operation, source) <= limit {
      assert after[..last] == attempts[..last];
      assert Tries(attempts, operation, source) <= limit;
    }
  }

  lemma EvidenceHasSource(d: RunData, i: nat)
    requires Sound(d) && i < |d.evidence|
    ensures d.sources != []
  {
    assert Accounted(d.sources, d.evidence[i]);
  }

  predicate MadeFor(s: Snapshot, source: Source) {
    s.source == source.id && s.id == SnapshotId(source.id, s.contentHash)
  }

  function Hashes(snapshots: seq<Snapshot>): set<Id> {
    set i | 0 <= i < |snapshots| :: snapshots[i].contentHash
  }

  /** A page with new content has a new evidence id, and recording it keeps the run sound. */
  lemma NewPageKeeps(d: RunData, k: nat, snapshot: Snapshot, assessment: Assessment, used: nat, policy: ResearchPolicy)
    requires Kept(d, used, policy) && k < |d.sources| && d.sources[k].status.Selected?
             && MadeFor(snapshot, d.sources[k])
    requires snapshot.contentHash !in Hashes(d.snapshots)
    requires assessment.usable ==> !snapshot.risk.injectionSuspected
    requires assessment.conflict == NotChecked
    ensures Kept(RecordedOn(d, k, snapshot, assessment), used, policy)
    ensures forall i :: 0 <= i < |d.evidence| ==> d.evidence[i].id != EvidenceId(d.runId, snapshot.contentHash)
    ensures Hashes(d.snapshots + [snapshot]) == Hashes(d.snapshots) + {snapshot.contentHash}
  {
    forall i | 0 <= i < |d.snapshots| ensures d.snapshots[i].contentHash != snapshot.contentHash {
      assert d.snapshots[i].contentHash in Hashes(d.snapshots);
    }
    RecordKeeps(d, k, snapshot, assessment);
    forall i | 0 <= i < |d.evidence| ensures d.evidence[i].id != EvidenceId(d.runId, snapshot.contentHash) {
      assert MadeAt(d, i);
    }
    var all := d.snapshots + [snapshot];
    assert all[|d.snapshots|] == snapshot;
    forall h | h in Hashes(d.snapshots) ensures h in Hashes(all) {
      var i :| 0 <= i < |d.snapshots| && d.snapshots[i].contentHash == h;
      assert all[i] == d.snapshots[i];
    }
  }

  lemma SnapshotHasSource(d: RunData)
    requires Sound(d) && d.snapshots != []
    ensures d.evidence != [] && d.sources != []
  {
    EvidenceHasSource(d, 0);
  }

  // ---------------------------------------------------------------- what a page does to a run

  predicate HasContent(snapshots: seq<Snapshot>, contentHash: Id) {
    exists s :: s in snapshots && s.contentHash == contentHash
  }

  /** The same source, whatever was decided about it. */
  predicate SameSource(a: Source, b: Source) {
    a.(status := b.status, reasons := b.reasons) == b
  }

  predicate SameSources(before: seq<Source>, after: seq<Source>) {
    |before| == |after| && forall k :: 0 <= k < |before| ==> SameSource(before[k], after[k])
  }

  /** The item made of a page from this source: usable unless the policy observes a blocking reason. */
  ghost predicate ItemOf(policy: EvidencePolicy, d: RunData, source: Source, page: Snapshot, e: Evidence) {
    && e.id == EvidenceId(d.runId, page.contentHash) && e.claimRefs == d.request.claimRefs && e.source == source.id
    && e.snapshot == page.id && e.contentHash == page.contentHash && e.risk == page.risk
    && e.assessment.conflict == NotChecked
    && (e.assessment.usable <==>
        forall r :: r in BLOCKING ==> !Observed(policy, page, source, d.request.maximumAgeDays, r))
    && (e.assessment.freshness.Stale? <==>
         source.published.DaysOld? && source.published.days > d.request.maximumAgeDays)
  }

  /** The page of source k and its item were added, and the source settled by the item's usability. */
  ghost predicate Recorded(policy: EvidencePolicy, before: RunData, after: RunData, k: nat, page: Snapshot) {
    && k < |before.sources| == |after.sources|
    && after.snapshots == before.snapshots + [page]
    && |after.evidence| == |before.evidence| + 1 && before.evidence <= after.evidence
    && var e := after.evidence[|before.evidence|];
       && ItemOf(policy, before, before.sources[k], page, e)
       && after.sources[k].status == if e.assessment.usable then Extracted else ReviewRequired
  }

  /**
   What became of candidate k. Without a page it is left a citation. A page whose content the run already has makes it
   a duplicate; a page with new content is recorded.
   */
  ghost predicate SettledBy(policy: EvidencePolicy, before: RunData, after: RunData, k: nat, page: Option<Snapshot>) {
    && k < |before.sources| == |after.sources|
    && after.sources == before.sources[k := after.sources[k]] && SameSource(before.sources[k], after.sources[k])
    && match page
       case None =>
         && after.sources[k].status == CitationOnly
         && after.snapshots == before.snapshots && after.evidence == before.evidence
       case Some(p) =>
         && MadeFor(p, before.sources[k])
         && if HasContent(before.snapshots, p.contentHash) then
              && after.sources[k].status == DuplicateContent
              && after.snapshots == before.snapshots && after.evidence == before.evidence
            else Recorded(policy, before, after, k, p)
  }

  lemma HashIsContent(snapshots: seq<Snapshot>, contentHash: Id)
    ensures contentHash in Hashes(snapshots) <==> HasContent(snapshots, contentHash)
  {
    if i :| 0 <= i < |snapshots| && snapshots[i].contentHash == contentHash {
      assert snapshots[i] in snapshots;
    }
  }

  lemma RecordedOnIs(
    policy: EvidencePolicy, d: RunData, k: nat, page: Snapshot, a: Assessment)
    requires k < |d.sources| && a.conflict == NotChecked
    requires a.usable <==> forall r :: r in BLOCKING ==>
             !Observed(policy, page, d.sources[k], d.request.maximumAgeDays, r)
    requires a.freshness.Stale? <==> Observed(policy, page, d.sources[k], d.request.maximumAgeDays, ContentOutdated)
    ensures Recorded(policy, d, RecordedOn(d, k, page, a), k, page)
  {
    assert Observed(policy, page, d.sources[k], d.request.maximumAgeDays, ContentOutdated) <==>
      d.sources[k].published.DaysOld? && d.sources[k].published.days > d.request.maximumAgeDays;
    hide Observed;
  }

  /** That a source was selected before its page was recorded changes nothing about the item. */
  lemma SelectedMakesNoOdds(
    policy: EvidencePolicy, before: RunData, selected: RunData, after: RunData, k: nat, page: Snapshot)
    requires Recorded(policy, selected, after, k, page) && k < |before.sources| == |selected.sources|
    requires selected.snapshots == before.snapshots && selected.evidence == before.evidence
    requires selected.runId == before.runId && selected.request == before.request
    requires SameSource(before.sources[k], selected.sources[k])
    ensures Recorded(policy, before, after, k, page)
  {
    forall r ensures Observed(policy, page, before.sources[k], before.request.maximumAgeDays, r) ==
                     Observed(policy, page, selected.sources[k], before.request.maximumAgeDays, r)
    {
    }
    hide Observed;
  }

  lemma SelectedIsNoStep(
    policy: EvidencePolicy, before: RunData, selected: RunData, after: RunData, k: nat, page: Snapshot)
    requires SettledBy(policy, selected, after, k, Some(page)) && k < |before.sources| == |selected.sources|
    requires selected.snapshots == before.snapshots && selected.evidence == before.evidence
    requires selected.runId == before.runId && selected.request == before.request
    requires selected.sources == before.sources[k := selected.sources[k]]
    requires SameSource(before.sources[k], selected.sources[k])
    ensures SettledBy(policy, before, after, k, Some(page))
  {
    if !HasContent(before.snapshots, page.contentHash) {
      SelectedMakesNoOdds(policy, before, selected, after, k, page);
    }
    hide Recorded, HasContent;
  }

  /** A page's candidate is recorded with it or a duplicate of an earlier one; without a page it is a citation. */
  predicate EndedBy(status: SourceStatus, page: Option<Snapshot>) {
    match page
    case None => status == CitationOnly
    case Some(_) => status in {DuplicateContent, Extracted, ReviewRequired}
  }

  /** All candidates settled: every other source is as before, and the new snapshots are the first pages. */
  ghost predicate Worked(before: RunData, after: RunData, candidates: seq<nat>, pages: seq<Option<Snapshot>>) {
    && |pages| == |candidates| && SameSources(before.sources, after.sources)
    && after.snapshots == before.snapshots + FirstPages(before.snapshots, pages)
    && before.evidence <= after.evidence
    && |after.evidence| - |before.evidence| == |after.snapshots| - |before.snapshots|
    && (forall k :: 0 <= k < |before.sources| && k !in candidates ==> after.sources[k] == before.sources[k])
    && (forall m :: 0 <= m < |candidates| ==>
          candidates[m] < |after.sources| && EndedBy(after.sources[candidates[m]].status, pages[m]))
  }

  lemma NothingWorked(d: RunData)
    ensures Worked(d, d, [], [])
  {
  }

  lemma WorkedNext(
    before: RunData, d: RunData, after: RunData, candidates: seq<nat>, pages: seq<Option<Snapshot>>, k: nat,
    page: Option<Snapshot>, policy: EvidencePolicy)
    requires Worked(before, d, candidates, pages) && SettledBy(policy, d, after, k, page) && k !in candidates
    ensures Worked(before, after, candidates + [k], pages + [page])
  {
    assert (pages + [page])[..|pages|] == pages;
    hide ItemOf, FirstPages, HasContent;
    FirstPagesNext(before.snapshots, pages, page);
  }

  lemma FirstPagesNext(known: seq<Snapshot>, pages: seq<Option<Snapshot>>, page: Option<Snapshot>)
    ensures var sofar := FirstPages(known, pages);
      FirstPages(known, pages + [page]) ==
      if page.Some? && !HasContent(known + sofar, page.value.contentHash) then sofar + [page.value] else sofar
  {
    assert (pages + [page])[..|pages|] == pages;
  }

  /** A candidate without a page leaves a citation, and one with a page leaves a snapshot. */
  lemma PagesLeaveTraces(before: RunData, after: RunData, candidates: seq<nat>, pages: seq<Option<Snapshot>>)
    requires Worked(before, after, candidates, pages)
    ensures SameSources(before.sources, after.sources)
    ensures after.snapshots == before.snapshots + FirstPages(before.snapshots, pages) && |pages| == |candidates|
    ensures pages != [] ==> after.snapshots != [] || HasCitation(after.sources)
  {
    if pages != [] {
      if pages[0].Some? {
        ContentsOfFirstPages(before.snapshots, pages, pages[0].value.contentHash);
        assert ObtainedBefore(pages, |pages|, pages[0].value.contentHash);
      } else {
        assert after.sources[candidates[0]].status.CitationOnly?;
      }
    }
  }

  lemma SameAsItself(sources: seq<Source>)
    ensures SameSources(sources, sources)
  {
  }

  lemma SourcesStaySame(a: seq<Source>, b: seq<Source>, c: seq<Source>, d: seq<Source>)
    requires SameSources(a, b) && SameSources(b, c) && SameSources(c, d)
    ensures SameSources(a, d)
  {
  }

  lemma MarkKeepsSources(d: RunData, d': RunData)
    requires MarkedFrom(d, d')
    ensures SameSources(d.sources, d'.sources)
  {
  }

  /** Exactly the eligible items, compiled and in order. */
  predicate CompiledFrom(d: RunData, compiled: seq<DecisionEvidence>) {
    && |compiled| == |Places(d.evidence)|
    && forall k :: 0 <= k < |compiled| ==> CompilesAt(d, compiled[k], d.evidence[Places(d.evidence)[k]])
  }

  /** The obtained pages whose content is neither known nor obtained earlier, in order. */
  function FirstPages(known: seq<Snapshot>, pages: seq<Option<Snapshot>>): seq<Snapshot> {
    if pages == [] then []
    else
      var sofar, last := FirstPages(known, pages[..|pages| - 1]), pages[|pages| - 1];
      if last.Some? && !HasContent(known + sofar, last.value.contentHash) then sofar + [last.value] else sofar
  }

  predicate ObtainedBefore(pages: seq<Option<Snapshot>>, n: nat, contentHash: Id) {
    exists i :: 0 <= i < n && i < |pages| && pages[i].Some? && pages[i].value.contentHash == contentHash
  }

  /** Page i is the first obtained one with its content, and the run did not have that content. */
  predicate IsFirstPage(known: seq<Snapshot>, pages: seq<Option<Snapshot>>, i: nat) {
    && i < |pages| && pages[i].Some? && !HasContent(known, pages[i].value.contentHash)
    && !ObtainedBefore(pages, i, pages[i].value.contentHash)
  }

  lemma {:induction false} ContentsOfFirstPages(known: seq<Snapshot>, pages: seq<Option<Snapshot>>, contentHash: Id)
    ensures HasContent(known + FirstPages(known, pages), contentHash) <==>
            HasContent(known, contentHash) || ObtainedBefore(pages, |pages|, contentHash)
  {
    if pages != [] {
      var init, last := pages[..|pages| - 1], pages[|pages| - 1];
      ContentsOfFirstPages(known, init, contentHash);
      var sofar, all := FirstPages(known, init), FirstPages(known, pages);
      assert ObtainedBefore(pages, |pages|, contentHash) <==>
        ObtainedBefore(init, |init|, contentHash) || (last.Some? && last.value.contentHash == contentHash) by {
        if ObtainedBefore(init, |init|, contentHash) {
          var i :| 0 <= i < |init| && init[i].Some? && init[i].value.contentHash == contentHash;
          assert pages[i] == init[i];
        }
        if last.Some? && last.value.contentHash == contentHash {
          assert pages[|init|] == last;
        }
        assert forall i :: 0 <= i < |init| ==> init[i] == pages[i];
      }
      if last.Some? && !HasContent(known + sofar, last.value.contentHash) {
        assert known + all == known + sofar + [last.value];
        assert forall s :: s in known + all <==> s in known + sofar || s == last.value;
      }
    }
  }

  /** The found pages are those at these places: each the first with a content the run did not have. */
  ghost predicate FirstAt(
    known: seq<Snapshot>, pages: seq<Option<Snapshot>>, found: seq<Snapshot>, places: seq<nat>)
  {
    && |places| == |found|
    && (forall m, n :: 0 <= m < n < |places| ==> places[m] < places[n])
    && (forall i: nat :: i in places <==> IsFirstPage(known, pages, i))
    && (forall m :: 0 <= m < |found| ==> places[m] < |pages| && pages[places[m]] == Some(found[m]))
  }

  lemma FirstAtNext(
    known: seq<Snapshot>, init: seq<Option<Snapshot>>, last: Option<Snapshot>, found: seq<Snapshot>, places: seq<nat>)
    requires FirstAt(known, init, found, places)
    requires IsFirstPage(known, init + [last], |init|) ==> last.Some?
    ensures if IsFirstPage(known, init + [last], |init|)
            then FirstAt(known, init + [last], found + [last.value], places + [|init|])
            else FirstAt(known, init + [last], found, places)
  {
    var pages := init + [last];
    forall i | 0 <= i < |init| ensures IsFirstPage(known, init, i) <==> IsFirstPage(known, pages, i) {
      EarlierPages(init, last, i, if init[i].Some? then init[i].value.contentHash else 0);
    }
    assert forall i: nat :: IsFirstPage(known, pages, i) ==> i <= |init|;
    assert forall i: nat :: IsFirstPage(known, init, i) ==> i < |init|;
    assert forall i :: 0 <= i < |init| ==> pages[i] == init[i];
    hide IsFirstPage;
    assert forall m :: 0 <= m < |places| ==> places[m] in places;
    if IsFirstPage(known, pages, |init|) {
      assert forall i: nat :: i in places + [|init|] <==> i in places || i == |init|;
    }
  }

  /** Exactly the pages that are the first with a content the run did not have, in the order they were obtained. */
  lemma {:induction false} FirstPagesAre(known: seq<Snapshot>, pages: seq<Option<Snapshot>>) returns (places: seq<nat>)
    ensures FirstAt(known, pages, FirstPages(known, pages), places)
  {
    if pages == [] {
      places := [];
    } else {
      var init, last := pages[..|pages| - 1], pages[|pages| - 1];
      places := FirstPagesAre(known, init);
      assert pages == init + [last];
      LastIsFirst(known, init, last);
      FirstAtNext(known, init, last, FirstPages(known, init), places);
      hide IsFirstPage, HasContent, FirstAt;
      if IsFirstPage(known, pages, |init|) {
        places := places + [|init|];
      }
    }
  }

  lemma LastIsFirst(known: seq<Snapshot>, init: seq<Option<Snapshot>>, last: Option<Snapshot>)
    ensures IsFirstPage(known, init + [last], |init|) <==>
            last.Some? && !HasContent(known + FirstPages(known, init), last.value.contentHash)
  {
    if last.Some? {
      ContentsOfFirstPages(known, init, last.value.contentHash);
      EarlierPages(init, last, |init|, last.value.contentHash);
    }
    hide HasContent, ObtainedBefore, FirstPages;
  }

  lemma EarlierPages(init: seq<Option<Snapshot>>, last: Option<Snapshot>, n: nat, contentHash: Id)
    requires n <= |init|
    ensures ObtainedBefore(init, n, contentHash) <==> ObtainedBefore(init + [last], n, contentHash)
  {
    assert forall i :: 0 <= i < |init| ==> (init + [last])[i] == init[i];
  }

  // ---------------------------------------------------------------- why COMPLETED means complete

  const PARTIAL: set<SourceStatus> := {Blocked, FailedSource, Rejected, ReviewRequired, CitationOnly}

  predicate NonePartial(sources: seq<Source>) {
    forall k :: 0 <= k < |sources| ==> sources[k].status !in PARTIAL
  }

  predicate HasCitation(sources: seq<Source>) {
    exists k :: 0 <= k < |sources| && sources[k].status.CitationOnly?
  }

  /** Adding evidence to decision files breaks no promise of a saved run. */
  lemma GrowthKeepsPromises(s: DecisionHandoff.Store, s': DecisionHandoff.Store, d: RunData)
    requires Promised(s, d) && DecisionHandoff.Grown(s, s', (d.tenant, d.request.decisionFile))
    ensures Promised(s', d)
  {
    if d.status.Completed? {
      var file := (d.tenant, d.request.decisionFile);
      forall id | id in DecisionHandoff.IdsOf(s.documents[file].evidence)
        ensures id in DecisionHandoff.IdsOf(s'.documents[file].evidence)
      {
        var i :| 0 <= i < |s.documents[file].evidence| && s.documents[file].evidence[i].id == id;
        assert s'.documents[file].evidence[i].id == id;
      }
    }
  }

  /** When no source is left in a partial status after marking, all is clear. */
  lemma NothingPartial(before: RunData, d: RunData)
    requires Sound(before) && Sound(d) && MarkedFrom(before, d)
    requires NoneOpen(d.sources) && NonePartial(d.sources)
    ensures AllClear(d.sources, d.evidence, d.snapshots)
  {
    hide LogInv, Contradicts;
    forall i | 0 <= i < |d.evidence|
      ensures d.evidence[i].assessment.usable && !d.evidence[i].risk.injectionSuspected
              && d.evidence[i].assessment.conflict.NotChecked?
    {
      assert Accounted(d.sources, d.evidence[i]);
      assert MadeAt(d, i);
    }
    forall i, j | 0 <= i < j < |d.snapshots| ensures !Contradicts(d.snapshots[i].text, d.snapshots[j].text) {
      assert d.evidence[i].assessment.conflict.NotChecked?;
      MarkedExactly(before, d, i);
    }
  }

  predicate HasId(compiled: seq<DecisionEvidence>, id: EvidenceId) {
    exists e :: e in compiled && e.id == id
  }

  predicate AllCompiled(evidence: seq<Evidence>, compiled: seq<DecisionEvidence>) {
    forall i :: 0 <= i < |evidence| && Eligible(evidence[i]) ==> HasId(compiled, evidence[i].id)
  }

  /** When all is clear every item was compiled. */
  lemma ClearIsCompiled(
    sources: seq<Source>, evidence: seq<Evidence>, snapshots: seq<Snapshot>, compiled: seq<DecisionEvidence>)
    requires AllClear(sources, evidence, snapshots) && AllCompiled(evidence, compiled) && evidence != []
    ensures compiled != []
  {
    assert HasId(compiled, evidence[0].id);
  }

  lemma EveryItemFound(d: RunData)
    requires Sound(d)
    ensures forall i :: 0 <= i < |d.evidence| ==> Holds(d.snapshots, d.evidence[i].snapshot)
  {
    hide Holds;
    forall i | 0 <= i < |d.evidence| ensures Holds(d.snapshots, d.evidence[i].snapshot) {
      LookupNeverMisses(d, i);
    }
  }

  /** What compiles has every eligible item, and something only if some item is eligible. */
  lemma CompiledCovers(d: RunData, compiled: seq<DecisionEvidence>)
    requires |compiled| == |Places(d.evidence)|
    requires forall k :: 0 <= k < |compiled| ==> CompilesAt(d, compiled[k], d.evidence[Places(d.evidence)[k]])
    ensures AllCompiled(d.evidence, compiled)
    ensures compiled != [] ==> exists i :: 0 <= i < |d.evidence| && Eligible(d.evidence[i])
  {
    hide Eligible;
    var places := Places(d.evidence);
    assert compiled != [] ==> places[0] in places;
    forall i | 0 <= i < |d.evidence| && Eligible(d.evidence[i]) ensures HasId(compiled, d.evidence[i].id) {
      var k :| 0 <= k < |places| && places[k] == i;
      assert compiled[k] in compiled && CompilesAt(d, compiled[k], d.evidence[places[k]]);
    }
  }

  // ---------------------------------------------------------------- reading the invariants out

  /** An item with its own extracted source, in the decision file on its own account. */
  predicate ItemComplete(s: DecisionHandoff.Store, d: RunData, e: Evidence) {
    && e.assessment.usable && !e.risk.injectionSuspected && e.assessment.conflict.NotChecked?
    && (exists k :: 0 <= k < |d.sources| && d.sources[k].id == e.source && d.sources[k].status.Extracted?)
    && (d.tenant, d.request.decisionFile) in s.documents
    && e.id in DecisionHandoff.IdsOf(s.documents[(d.tenant, d.request.decisionFile)].evidence)
  }

  /** Everything a COMPLETED run promises. */
  predicate FullyComplete(s: DecisionHandoff.Store, d: RunData) {
    && d.evidence != [] && |d.snapshots| == |d.evidence|
    && d.attachedTo == Some(d.request.decisionFile)
    && (forall k :: 0 <= k < |d.sources| ==> d.sources[k].status in {Extracted, DuplicateContent, SkippedLimit})
    && (forall i :: 0 <= i < |d.evidence| ==> ItemComplete(s, d, d.evidence[i]))
    && (forall i, j :: 0 <= i < j < |d.snapshots| ==> !Contradicts(d.snapshots[i].text, d.snapshots[j].text))
  }

  lemma CompletedReadsOut(s: DecisionHandoff.Store, d: RunData)
    requires Sound(d) && Promised(s, d) && d.status.Completed?
    ensures FullyComplete(s, d)
  {
    hide LogInv, Contradicts;
    forall i | 0 <= i < |d.evidence| ensures ItemComplete(s, d, d.evidence[i]) {
      var e := d.evidence[i];
      assert Accounted(d.sources, e);
      var k :| 0 <= k < |d.sources| && Accounts(d.sources[k], e);
      assert d.sources[k].id == e.source && d.sources[k].status.Extracted?;
    }
    hide Accounted, ItemComplete, InFile;
  }

  /**
   Items and snapshots correspond place by place; ids and contents are distinct; the lookup finds the own snapshot.
   */
  predicate Matched(evidence: seq<Evidence>, snapshots: seq<Snapshot>) {
    && |snapshots| == |evidence|
    && (forall i :: 0 <= i < |evidence| ==> MatchedAt(evidence, snapshots, i))
    && (forall i, j :: 0 <= i < j < |evidence| ==>
          && evidence[i].id != evidence[j].id
          && snapshots[i].id != snapshots[j].id
          && snapshots[i].contentHash != snapshots[j].contentHash)
  }

  predicate MatchedAt(evidence: seq<Evidence>, snapshots: seq<Snapshot>, i: nat)
    requires i < |evidence| == |snapshots|
  {
    && evidence[i].snapshot == snapshots[i].id
    && evidence[i].contentHash == snapshots[i].contentHash
    && evidence[i].source == snapshots[i].source
    && Holds(snapshots, evidence[i].snapshot)
    && Find(snapshots, evidence[i].snapshot) == snapshots[i]
  }

  lemma SoundReadsOut(d: RunData)
    requires Sound(d)
    ensures Replay(d.audit) == Some(d.status)
    ensures Matched(d.evidence, d.snapshots)
  {
    StatusIsReplay(d.audit);
    hide LogInv, AllAccounted, Replay;
    forall i | 0 <= i < |d.evidence| ensures MatchedAt(d.evidence, d.snapshots, i) {
      assert MadeAt(d, i);
      LookupNeverMisses(d, i);
    }
    forall i, j | 0 <= i < j < |d.evidence|
      ensures d.evidence[i].id != d.evidence[j].id
      ensures d.snapshots[i].id != d.snapshots[j].id
      ensures d.snapshots[i].contentHash != d.snapshots[j].contentHash
    {
      assert MadeAt(d, i) && MadeAt(d, j);
    }
    hide MatchedAt;
  }
}
