/** What a sound run looks like between calls, and compiling its usable evidence for the decision file. */
module ResearchCompiler {
  import opened Wrappers
  import opened DecisionContracts
  import opened ResearchContracts
  import opened ResearchAudit
  import opened EvidenceRules

  // ---------------------------------------------------------------- sound runs

  /** Evidence item i was made from snapshot i, and text suspected of an injection is never usable. */
  predicate MadeFrom(e: Evidence, s: Snapshot, runId: Id, claimRefs: seq<Id>) {
    && s.id == SnapshotId(s.source, s.contentHash)
    && e.id == EvidenceId(runId, s.contentHash)
    && e.snapshot == s.id && e.source == s.source && e.contentHash == s.contentHash && e.risk == s.risk
    && e.claimRefs == claimRefs
    && (e.assessment.usable ==> !e.risk.injectionSuspected)
  }

  predicate AlignedParts(evidence: seq<Evidence>, snapshots: seq<Snapshot>, runId: Id, claimRefs: seq<Id>) {
    && |evidence| == |snapshots|
    && (forall i :: 0 <= i < |evidence| ==> MadeFrom(evidence[i], snapshots[i], runId, claimRefs))
    && (forall i, j :: 0 <= i < j < |snapshots| ==> snapshots[i].contentHash != snapshots[j].contentHash)
  }

  predicate MadeAt(d: RunData, i: nat)
    requires i < |d.evidence| == |d.snapshots|
  {
    MadeFrom(d.evidence[i], d.snapshots[i], d.runId, d.request.claimRefs)
  }

  predicate Aligned(d: RunData) {
    AlignedParts(d.evidence, d.snapshots, d.runId, d.request.claimRefs)
  }

  /** Source k accounts for an evidence item: it awaits review, or the item is usable and nothing contradicts it. */
  predicate Accounts(s: Source, e: Evidence) {
    && s.id == e.source
    && (s.status.ReviewRequired? || (s.status.Extracted? && e.assessment.usable && e.assessment.conflict.NotChecked?))
  }

  predicate Accounted(sources: seq<Source>, e: Evidence) {
    exists k :: 0 <= k < |sources| && Accounts(sources[k], e)
  }

  predicate AllAccounted(sources: seq<Source>, evidence: seq<Evidence>) {
    forall i :: 0 <= i < |evidence| ==> Accounted(sources, evidence[i])
  }

  /** What holds of a run at every save. */
  predicate Sound(d: RunData) {
    && d.request.Valid()
    && LogInv(d)
    && Aligned(d)
    && AllAccounted(d.sources, d.evidence)
    && (d.audit == [] ==> d.sources == [])
    && |d.attempts| <= d.costUnits
  }

  predicate Open(s: Source) { s.status.Discovered? || s.status.Selected? }

  predicate NoneOpen(sources: seq<Source>) {
    forall k :: 0 <= k < |sources| ==> !Open(sources[k])
  }

  // ---------------------------------------------------------------- compiling

  predicate Eligible(e: Evidence) {
    e.assessment.usable && !e.risk.injectionSuspected
  }

  predicate Holds(snapshots: seq<Snapshot>, id: SnapshotId) {
    exists i :: 0 <= i < |snapshots| && snapshots[i].id == id
  }

  /** The first snapshot with the id. */
  function Find(snapshots: seq<Snapshot>, id: SnapshotId): (s: Snapshot)
    requires Holds(snapshots, id)
    ensures s in snapshots && s.id == id
    ensures exists k :: 0 <= k < |snapshots| && snapshots[k] == s && forall j :: 0 <= j < k ==> snapshots[j].id != id
  {
    if snapshots[0].id == id then snapshots[0]
    else
      var found := Find(snapshots[1..], id);
      var k :| 0 <= k < |snapshots[1..]| && snapshots[1..][k] == found
               && forall j :: 0 <= j < k ==> snapshots[1..][j].id != id;
      assert snapshots[k + 1] == found && forall j :: 0 <= j < k + 1 ==> snapshots[j].id != id by {
        forall j | 0 <= j < k + 1 ensures snapshots[j].id != id {
          if j > 0 { assert snapshots[j] == snapshots[1..][j - 1]; }
        }
      }
      found
  }

  /** The places of the eligible items, in order. */
  function Places(evidence: seq<Evidence>): (places: seq<nat>)
    ensures forall k :: 0 <= k < |places| ==> places[k] < |evidence|
    ensures forall k, m :: 0 <= k < m < |places| ==> places[k] < places[m]
    ensures forall i :: 0 <= i < |evidence| ==> (i in places <==> Eligible(evidence[i]))
  {
    if evidence == [] then []
    else
      var last := |evidence| - 1;
      Places(evidence[..last]) + if Eligible(evidence[last]) then [last] else []
  }

  lemma PlacesNext(evidence: seq<Evidence>, i: nat)
    requires i < |evidence|
    ensures Places(evidence[..i + 1]) == Places(evidence[..i]) + if Eligible(evidence[i]) then [i] else []
  {
    assert evidence[..i + 1][..i] == evidence[..i];
  }

  /** Observed when the first snapshot with the item's id was retrieved. */
  predicate RetrievedAt(snapshots: seq<Snapshot>, id: SnapshotId, time: int) {
    exists k :: 0 <= k < |snapshots| && snapshots[k].id == id && snapshots[k].retrievedAt == time
                && forall j :: 0 <= j < k ==> snapshots[j].id != id
  }

  /**
   The compiled form of an item: its own fields, CONFLICTING before OUTDATED before UNVERIFIED, and its page's time.
   */
  predicate CompilesAt(d: RunData, item: DecisionEvidence, e: Evidence) {
    && item.id == e.id && item.run == d.runId && item.claimRefs == e.claimRefs && item.contentHash == e.contentHash
    && item.correlationId == Some(d.correlationId)
    && item.status in {Conflicting, Outdated, Unverified}
    && (item.status == Conflicting <==> e.assessment.conflict == Contradicted)
    && (item.status == Outdated <==> e.assessment.conflict != Contradicted && e.assessment.freshness == Stale)
    && RetrievedAt(d.snapshots, e.snapshot, item.observedAt)
  }

  /**
   Compiling fails exactly when an eligible item has no snapshot; otherwise it keeps exactly the eligible items, in
   order, with their conservative status and the time their page was retrieved.
   */
  method Compile(d: RunData) returns (r: Result<seq<DecisionEvidence>, SnapshotId>)
    ensures r.Failure? <==>
            exists i :: 0 <= i < |d.evidence| && Eligible(d.evidence[i]) && !Holds(d.snapshots, d.evidence[i].snapshot)
    ensures r.Success? ==> |r.value| == |Places(d.evidence)|
    ensures r.Success? ==> forall k :: 0 <= k < |r.value| ==>
            CompilesAt(d, r.value[k], d.evidence[Places(d.evidence)[k]])
  {
    hide Holds, Find, Places;
    var compiled: seq<DecisionEvidence> := [];
    ghost var places: seq<nat> := [];
    assert places == Places(d.evidence[..0]) by { NoPlaces(d.evidence); }
    for i := 0 to |d.evidence|
      invariant forall j :: 0 <= j < i && Eligible(d.evidence[j]) ==> Holds(d.snapshots, d.evidence[j].snapshot)
      invariant places == Places(d.evidence[..i]) && |compiled| == |places|
      invariant forall k :: 0 <= k < |places| ==>
                places[k] < |d.evidence| && CompilesAt(d, compiled[k], d.evidence[places[k]])
    {
      PlacesNext(d.evidence, i);
      var candidate := d.evidence[i];
      if candidate.assessment.usable && !candidate.risk.injectionSuspected {
        var status := Unverified;
        if candidate.assessment.conflict == Contradicted {
          status := Conflicting;
        } else if candidate.assessment.freshness == Stale {
          status := Outdated;
        }
        if !Holds(d.snapshots, candidate.snapshot) {
          return Failure(candidate.snapshot);
        }
        var snapshot := Find(d.snapshots, candidate.snapshot);
        assert RetrievedAt(d.snapshots, candidate.snapshot, snapshot.retrievedAt);
        var item := DecisionEvidence(candidate.id, d.runId, candidate.claimRefs, status, snapshot.retrievedAt,
                                     candidate.contentHash, Some(d.correlationId));
        assert CompilesAt(d, item, candidate);
        compiled, places := compiled + [item], places + [i];
      }
    }
    assert d.evidence[..|d.evidence|] == d.evidence;
    return Success(compiled);
  }

  lemma NoPlaces(evidence: seq<Evidence>)
    ensures Places(evidence[..0]) == []
  {
  }

  /** In an aligned run every item finds its own snapshot: the one at its own place. */
  lemma LookupNeverMisses(d: RunData, i: nat)
    requires Aligned(d) && i < |d.evidence|
    ensures Holds(d.snapshots, d.evidence[i].snapshot)
    ensures Find(d.snapshots, d.evidence[i].snapshot) == d.snapshots[i]
  {
    hide Find;
    assert MadeAt(d, i);
    var s := Find(d.snapshots, d.evidence[i].snapshot);
    var k :| 0 <= k < |d.snapshots| && d.snapshots[k] == s;
    assert MadeAt(d, k);
  }

  // ---------------------------------------------------------------- steps that keep a run sound

  /** Appending one page that is new to the run, with its evidence, and settling the source it came from. */
  function RecordedOn(d: RunData, k: nat, snapshot: Snapshot, assessment: Assessment): RunData
    requires k < |d.sources|
  {
    var e := Evidence(EvidenceId(d.runId, snapshot.contentHash), d.request.claimRefs, d.sources[k].id, snapshot.id,
                      snapshot.contentHash, assessment, snapshot.risk);
    d.(snapshots := d.snapshots + [snapshot], evidence := d.evidence + [e],
       sources := d.sources[k := d.sources[k].(status := if assessment.usable then Extracted else ReviewRequired)])
  }

  /** A source that accounts for nothing may be changed at will, as long as its id stays. */
  lemma SourceChangeKeeps(d: RunData, k: nat, s: Source)
    requires Sound(d) && k < |d.sources| && s.id == d.sources[k].id
    requires !d.sources[k].status.Extracted? && !d.sources[k].status.ReviewRequired?
    ensures Sound(d.(sources := d.sources[k := s]))
  {
    var d' := d.(sources := d.sources[k := s]);
    forall i | 0 <= i < |d.evidence| ensures Accounted(d'.sources, d'.evidence[i]) && MadeAt(d', i) {
      assert Accounted(d.sources, d.evidence[i]) && MadeAt(d, i);
      var m :| 0 <= m < |d.sources| && Accounts(d.sources[m], d.evidence[i]);
      assert Accounts(d'.sources[m], d'.evidence[i]);
    }
  }

  lemma RecordKeeps(d: RunData, k: nat, snapshot: Snapshot, assessment: Assessment)
    requires Sound(d) && k < |d.sources|
    requires !d.sources[k].status.Extracted? && !d.sources[k].status.ReviewRequired?
    requires snapshot.id == SnapshotId(d.sources[k].id, snapshot.contentHash) && snapshot.source == d.sources[k].id
    requires forall i :: 0 <= i < |d.snapshots| ==> d.snapshots[i].contentHash != snapshot.contentHash
    requires assessment.usable ==> !snapshot.risk.injectionSuspected
    requires assessment.conflict == NotChecked
    ensures Sound(RecordedOn(d, k, snapshot, assessment))
  {
    var d' := RecordedOn(d, k, snapshot, assessment);
    var settled := d.(sources := d'.sources);
    SourceChangeKeeps(d, k, d'.sources[k]);
    forall i | 0 <= i < |d'.evidence| ensures MadeAt(d', i) && Accounted(d'.sources, d'.evidence[i]) {
      if i < |d.evidence| {
        assert MadeAt(settled, i) && Accounted(settled.sources, settled.evidence[i]);
      } else {
        assert Accounts(d'.sources[k], d'.evidence[i]);
      }
    }
  }

  lemma MarkKeeps(d: RunData, d': RunData)
    requires Sound(d) && MarkedFrom(d, d')
    ensures Sound(d')
    ensures NoneOpen(d.sources) ==> NoneOpen(d'.sources)
    ensures d' == d.(evidence := d'.evidence, sources := d'.sources)
  {
    hide InConflict, Joined;
    forall i | 0 <= i < |d'.evidence| ensures MadeAt(d', i) && Accounted(d'.sources, d'.evidence[i]) {
      assert MadeAt(d, i) && Accounted(d.sources, d.evidence[i]);
      var k :| 0 <= k < |d.sources| && Accounts(d.sources[k], d.evidence[i]);
      if InConflict(d, d.evidence[i].id) {
        assert SourceInConflict(d, d.sources[k].id);
      }
      assert Accounts(d'.sources[k], d'.evidence[i]);
    }
  }

  // ---------------------------------------------------------------- conflicts in a sound run

  lemma OwnText(d: RunData, i: nat)
    requires Aligned(d) && i < |d.evidence|
    ensures TextOf(d.snapshots, d.evidence[i].snapshot) == Some(d.snapshots[i].text)
  {
    assert MadeAt(d, i);
    OwnTextIn(d, i, |d.snapshots|);
    assert d.snapshots[..|d.snapshots|] == d.snapshots;
  }

  lemma {:induction false} OwnTextIn(d: RunData, i: nat, n: nat)
    requires Aligned(d) && i < n <= |d.evidence|
    ensures TextOf(d.snapshots[..n], d.evidence[i].snapshot) == Some(d.snapshots[i].text)
  {
    assert MadeAt(d, i) && MadeAt(d, n - 1);
    assert d.snapshots[..n][..n - 1] == d.snapshots[..n - 1];
    if i < n - 1 {
      OwnTextIn(d, i, n - 1);
    }
  }

  lemma ClashIsContradiction(d: RunData, i: nat, j: nat)
    requires Sound(d) && i < |d.evidence| && j < |d.evidence|
    ensures Clash(d.snapshots, d.evidence[i], d.evidence[j]) <==> Contradicts(d.snapshots[i].text, d.snapshots[j].text)
  {
    hide Contradicts, LogInv, AllAccounted;
    OwnText(d, i);
    OwnText(d, j);
    assert MadeAt(d, i) && MadeAt(d, j);
    var c := d.request.claimRefs[0];
    assert c in d.evidence[i].claimRefs && c in d.evidence[j].claimRefs;
  }

  /** Marking a sound run contradicts exactly the items whose page contradicts the page of some other item. */
  lemma MarkedExactly(d: RunData, d': RunData, i: nat)
    requires Sound(d) && MarkedFrom(d, d') && i < |d.evidence| && d.evidence[i].assessment.conflict.NotChecked?
    ensures d'.evidence[i].assessment.conflict.Contradicted?
       <==> exists j :: 0 <= j < |d.evidence| && j != i && Contradicts(d.snapshots[i].text, d.snapshots[j].text)
  {
    hide Contradicts, Clash, LogInv, AllAccounted;
    assert MadeAt(d, i);
    if InConflict(d, d.evidence[i].id) {
      var a, b :| 0 <= a < b < |d.evidence| && ClashNames(d, a, b, d.evidence[i].id);
      assert MadeAt(d, a) && MadeAt(d, b);
      ClashIsContradiction(d, a, b);
      ContradictionIsMutual(d.snapshots[a].text, d.snapshots[b].text);
    }
    if j :| 0 <= j < |d.evidence| && j != i && Contradicts(d.snapshots[i].text, d.snapshots[j].text) {
      ContradictionIsMutual(d.snapshots[i].text, d.snapshots[j].text);
      ClashIsContradiction(d, i, j);
      ClashIsContradiction(d, j, i);
      assert if i < j then ClashNames(d, i, j, d.evidence[i].id) else ClashNames(d, j, i, d.evidence[i].id);
    }
  }
}
