/** How research evidence is judged: the admission policy for one page, and lexical conflicts between pages. */
module EvidenceRules {
  import opened Wrappers
  import opened DecisionContracts
  import opened ResearchContracts
  import opened ResearchAudit

  // ---------------------------------------------------------------- the admission policy

  datatype EvidencePolicy = EvidencePolicy(primary: set<Id>, secondary: set<Id>, languages: set<Id>, minimumLength: nat)

  const BLOCKING: set<Reason> := {
    ProvenanceMissing, ContentTooShort, LoginPage, PaywallDetected, UnsupportedLanguage, PromptInjectionSuspected}

  /** Whether the page, its source and its age give this reason. */
  predicate Observed(p: EvidencePolicy, snapshot: Snapshot, source: Source, maximumAge: int, r: Reason) {
    match r
    case ProvenanceMissing => !source.providerNamed || !snapshot.providerNamed
    case ContentTooShort => snapshot.text.length < p.minimumLength
    case LoginPage => snapshot.text.asksLogin
    case PaywallDetected => snapshot.text.asksPayment
    case UnsupportedLanguage => snapshot.language !in p.languages
    case PromptInjectionSuspected => snapshot.risk.injectionSuspected
    case ContentOutdated => source.published.DaysOld? && source.published.days > maximumAge
    case PublicationDateInvalid => source.published.BadDate?
    case _ => false
  }

  /** The reasons are found in this order, so none is found twice. */
  const ORDER: seq<Reason> := [
    ProvenanceMissing, ContentTooShort, LoginPage, PaywallDetected, UnsupportedLanguage, PromptInjectionSuspected,
    ContentOutdated, PublicationDateInvalid]

  /** The first n places of the order, without the reasons not observed. */
  function FoundUpTo(p: EvidencePolicy, snapshot: Snapshot, source: Source, maximumAge: int, n: nat): seq<Reason>
    requires n <= |ORDER|
  {
    if n == 0 then []
    else
      FoundUpTo(p, snapshot, source, maximumAge, n - 1)
        + if Observed(p, snapshot, source, maximumAge, ORDER[n - 1]) then [ORDER[n - 1]] else []
  }

  /** Exactly the observed reasons are found, each of them once. */
  lemma {:induction false} FoundExactly(p: EvidencePolicy, snapshot: Snapshot, source: Source, maximumAge: int, n: nat)
    requires n <= |ORDER|
    ensures var found := FoundUpTo(p, snapshot, source, maximumAge, n);
      && (forall r :: r in found <==> r in ORDER[..n] && Observed(p, snapshot, source, maximumAge, r))
      && (forall i, j :: 0 <= i < j < |found| ==> found[i] != found[j])
  {
    hide Observed;
    if n > 0 {
      FoundExactly(p, snapshot, source, maximumAge, n - 1);
      assert ORDER[..n] == ORDER[..n - 1] + [ORDER[n - 1]];
      assert forall k :: 0 <= k < n - 1 ==> ORDER[k] != ORDER[n - 1];
    }
  }

  method FindReasons(p: EvidencePolicy, snapshot: Snapshot, source: Source, maximumAge: int)
    returns (reasons: seq<Reason>)
    ensures reasons == FoundUpTo(p, snapshot, source, maximumAge, |ORDER|)
  {
    reasons := [];
    if !source.providerNamed || !snapshot.providerNamed {
      reasons := reasons + [ProvenanceMissing];
    }
    assert reasons == FoundUpTo(p, snapshot, source, maximumAge, 1);
    if snapshot.text.length < p.minimumLength {
      reasons := reasons + [ContentTooShort];
    }
    assert reasons == FoundUpTo(p, snapshot, source, maximumAge, 2);
    if snapshot.text.asksLogin {
      reasons := reasons + [LoginPage];
    }
    assert reasons == FoundUpTo(p, snapshot, source, maximumAge, 3);
    if snapshot.text.asksPayment {
      reasons := reasons + [PaywallDetected];
    }
    assert reasons == FoundUpTo(p, snapshot, source, maximumAge, 4);
    if snapshot.language !in p.languages {
      reasons := reasons + [UnsupportedLanguage];
    }
    assert reasons == FoundUpTo(p, snapshot, source, maximumAge, 5);
    if snapshot.risk.injectionSuspected {
      reasons := reasons + [PromptInjectionSuspected];
    }
    assert reasons == FoundUpTo(p, snapshot, source, maximumAge, 6);
    match source.published {
      case NoDate =>
      case BadDate =>
        reasons := reasons + [PublicationDateInvalid];
      case DaysOld(days) =>
        if days > maximumAge {
          reasons := reasons + [ContentOutdated];
        }
    }
    assert reasons == FoundUpTo(p, snapshot, source, maximumAge, 6) + DateRemarks(source, maximumAge);
    DateRemarksAreLast(p, snapshot, source, maximumAge);
  }

  function DateRemarks(source: Source, maximumAge: int): seq<Reason> {
    match source.published
    case NoDate => []
    case BadDate => [PublicationDateInvalid]
    case DaysOld(days) => if days > maximumAge then [ContentOutdated] else []
  }

  lemma DateRemarksAreLast(p: EvidencePolicy, snapshot: Snapshot, source: Source, maximumAge: int)
    ensures FoundUpTo(p, snapshot, source, maximumAge, 8)
         == FoundUpTo(p, snapshot, source, maximumAge, 6) + DateRemarks(source, maximumAge)
  {
    assert FoundUpTo(p, snapshot, source, maximumAge, 8)
        == FoundUpTo(p, snapshot, source, maximumAge, 7)
           + if source.published.BadDate? then [PublicationDateInvalid] else [];
  }

  /** Every reason the policy can observe has its place in the order. */
  lemma OrderIsComplete(p: EvidencePolicy, snapshot: Snapshot, source: Source, maximumAge: int, r: Reason)
    requires Observed(p, snapshot, source, maximumAge, r)
    ensures r in ORDER[..|ORDER|]
  {
    assert ORDER[0] == ProvenanceMissing && ORDER[1] == ContentTooShort && ORDER[2] == LoginPage
      && ORDER[3] == PaywallDetected;
    assert ORDER[4] == UnsupportedLanguage && ORDER[5] == PromptInjectionSuspected && ORDER[6] == ContentOutdated
      && ORDER[7] == PublicationDateInvalid;
  }

  /**
   The verdict on one page. It is usable exactly when none of the six blocking reasons is observed; its reasons are
   exactly the observed ones, or the standing remark when there are none; a person is always asked to review it.
   */
  method Assess(p: EvidencePolicy, snapshot: Snapshot, source: Source, maximumAge: int) returns (a: Assessment)
    ensures a.usable <==> forall r :: r in BLOCKING ==> !Observed(p, snapshot, source, maximumAge, r)
    ensures a.freshness.Stale? <==> Observed(p, snapshot, source, maximumAge, ContentOutdated)
    ensures a.freshness.Current? <==> source.published.DaysOld? && source.published.days <= maximumAge
    ensures a.sourceType.Primary? <==> source.domain in p.primary
    ensures a.sourceType.Secondary? <==> source.domain in p.secondary && source.domain !in p.primary
    ensures a.usable ==> !snapshot.risk.injectionSuspected
    ensures a.conflict == NotChecked && a.requiresReview
    ensures forall r :: Observed(p, snapshot, source, maximumAge, r) ==> r in a.reasons
    ensures forall r :: r in a.reasons ==>
            Observed(p, snapshot, source, maximumAge, r) || a.reasons == [ExternalEvidenceUnverified]
    ensures a.reasons != [] && forall i, j :: 0 <= i < j < |a.reasons| ==> a.reasons[i] != a.reasons[j]
  {
    hide FoundUpTo;
    assert Observed(p, snapshot, source, maximumAge, ContentOutdated) <==>
      source.published.DaysOld? && source.published.days > maximumAge;
    assert Observed(p, snapshot, source, maximumAge, PromptInjectionSuspected) == snapshot.risk.injectionSuspected;
    hide Observed;
    var reasons := FindReasons(p, snapshot, source, maximumAge);
    FoundExactly(p, snapshot, source, maximumAge, |ORDER|);
    assert forall r :: r in reasons <==> Observed(p, snapshot, source, maximumAge, r) by {
      forall r | Observed(p, snapshot, source, maximumAge, r) ensures r in reasons {
        OrderIsComplete(p, snapshot, source, maximumAge, r);
      }
    }
    hide ORDER;
    var freshness := match source.published
      case NoDate => UnknownAge
      case BadDate => UnknownAge
      case DaysOld(days) => if days <= maximumAge then Current else Stale;
    var sourceType :=
      if source.domain in p.primary then Primary else if source.domain in p.secondary then Secondary else UnknownType;
    var usable := forall r :: r in BLOCKING ==> r !in reasons;
    if usable && reasons == [] {
      reasons := [ExternalEvidenceUnverified];
    }
    a := Assessment(freshness, sourceType, NotChecked, usable, true, reasons);
  }

  // ---------------------------------------------------------------- conflicts between two pages

  /** Some phrase pair occurs with opposite signs, and the pages share at least half the words of the shorter one. */
  predicate Contradicts(left: PageText, right: PageText) {
    && (left.positives * right.negatives != {} || left.negatives * right.positives != {})
    && var overlap, shorter := left.core * right.core, if |left.core| < |right.core| then |left.core| else |right.core|;
      overlap != {} && 2 * |overlap| >= if shorter < 1 then 1 else shorter
  }

  lemma ContradictionIsMutual(left: PageText, right: PageText)
    ensures Contradicts(left, right) <==> Contradicts(right, left)
  {
    assert left.core * right.core == right.core * left.core;
    assert left.positives * right.negatives == right.negatives * left.positives;
    assert left.negatives * right.positives == right.positives * left.negatives;
  }

  /** The text under a snapshot id; the last entry wins, as in a dictionary built from the list. */
  function TextOf(snapshots: seq<Snapshot>, id: SnapshotId): Option<PageText> {
    if snapshots == [] then None
    else if snapshots[|snapshots| - 1].id == id then Some(snapshots[|snapshots| - 1].text)
    else TextOf(snapshots[..|snapshots| - 1], id)
  }

  predicate Clash(snapshots: seq<Snapshot>, left: Evidence, right: Evidence) {
    && (exists c :: c in left.claimRefs && c in right.claimRefs)
    && var l, r := TextOf(snapshots, left.snapshot), TextOf(snapshots, right.snapshot);
      l.Some? && r.Some? && Contradicts(l.value, r.value)
  }

  /** An earlier and a later item clash and one of them has this id. */
  predicate ClashNames(d: RunData, i: nat, j: nat, id: EvidenceId)
    requires i < j < |d.evidence|
  {
    Clash(d.snapshots, d.evidence[i], d.evidence[j]) && (id == d.evidence[i].id || id == d.evidence[j].id)
  }

  predicate InConflict(d: RunData, id: EvidenceId) {
    exists i, j :: 0 <= i < j < |d.evidence| && ClashNames(d, i, j, id)
  }

  // ---------------------------------------------------------------- marking a run

  function Dedup(reasons: seq<Reason>): seq<Reason> {
    if reasons == [] then []
    else
      var init := Dedup(reasons[..|reasons| - 1]);
      if reasons[|reasons| - 1] in init then init else init + [reasons[|reasons| - 1]]
  }

  function MarkedEvidence(e: Evidence): Evidence {
    e.(assessment := e.assessment.(conflict := Contradicted, requiresReview := true,
                                   reasons := Dedup(e.assessment.reasons + [ConflictingEvidence])))
  }

  function MarkedSource(s: Source): Source {
    s.(status := ReviewRequired, reasons := Dedup(s.reasons + [ConflictingEvidence]))
  }

  predicate SourceInConflict(d: RunData, id: SourceId) {
    exists i :: 0 <= i < |d.evidence| && InConflict(d, d.evidence[i].id) && d.evidence[i].source == id
  }

  /** Exactly the clashing items and the sources they came from are marked; everything else stays as it was. */
  ghost predicate MarkedFrom(d: RunData, d': RunData) {
    && d' == d.(evidence := d'.evidence, sources := d'.sources)
    && |d'.evidence| == |d.evidence| && |d'.sources| == |d.sources|
    && (forall i :: 0 <= i < |d.evidence| ==>
          d'.evidence[i] == if InConflict(d, d.evidence[i].id) then MarkedEvidence(d.evidence[i]) else d.evidence[i])
    && (forall k :: 0 <= k < |d.sources| ==>
          d'.sources[k] == if SourceInConflict(d, d.sources[k].id) then MarkedSource(d.sources[k]) else d.sources[k])
  }

  /** The pairwise pass: every earlier item against every later one. */
  method ConflictingIds(d: RunData) returns (conflicting: set<EvidenceId>)
    ensures forall id :: id in conflicting <==> InConflict(d, id)
  {
    conflicting := {};
    for i := 0 to |d.evidence|
      invariant forall id :: id in conflicting ==> InConflict(d, id)
      invariant forall a, b, id :: 0 <= a < b < |d.evidence| && a < i && ClashNames(d, a, b, id) ==> id in conflicting
    {
      for j := i + 1 to |d.evidence|
        invariant forall id :: id in conflicting ==> InConflict(d, id)
        invariant forall a, b, id :: 0 <= a < b < |d.evidence| && a < i && ClashNames(d, a, b, id) ==> id in conflicting
        invariant forall b, id :: i < b < j && ClashNames(d, i, b, id) ==> id in conflicting
      {
        if Clash(d.snapshots, d.evidence[i], d.evidence[j]) {
          assert ClashNames(d, i, j, d.evidence[i].id) && ClashNames(d, i, j, d.evidence[j].id);
          conflicting := conflicting + {d.evidence[i].id, d.evidence[j].id};
        }
      }
    }
  }

  method MarkEvidence(run: ResearchRun, conflicting: set<EvidenceId>) returns (sourceIds: set<SourceId>)
    modifies run`evidence
    ensures |run.evidence| == |old(run.evidence)|
    ensures forall k :: 0 <= k < |run.evidence| ==>
              run.evidence[k] ==
              if old(run.evidence)[k].id in conflicting then MarkedEvidence(old(run.evidence)[k])
              else old(run.evidence)[k]
    ensures forall id :: id in sourceIds <==>
              exists k :: 0 <= k < |run.evidence| && old(run.evidence)[k].id in conflicting
                && old(run.evidence)[k].source == id
  {
    hide MarkedEvidence;
    sourceIds := {};
    ghost var before := run.evidence;
    for i := 0 to |run.evidence|
      invariant |run.evidence| == |before|
      invariant forall k :: 0 <= k < i ==>
                run.evidence[k] == if before[k].id in conflicting then MarkedEvidence(before[k]) else before[k]
      invariant forall k :: i <= k < |before| ==> run.evidence[k] == before[k]
      invariant forall id :: id in sourceIds <==>
                exists k :: 0 <= k < i && before[k].id in conflicting && before[k].source == id
    {
      if run.evidence[i].id in conflicting {
        sourceIds := sourceIds + {run.evidence[i].source};
        run.evidence := run.evidence[i := MarkedEvidence(run.evidence[i])];
      }
    }
  }

  method MarkSources(run: ResearchRun, sourceIds: set<SourceId>)
    modifies run`sources
    ensures |run.sources| == |old(run.sources)|
    ensures forall k :: 0 <= k < |run.sources| ==>
              run.sources[k] ==
              if old(run.sources)[k].id in sourceIds then MarkedSource(old(run.sources)[k]) else old(run.sources)[k]
  {
    hide MarkedSource;
    ghost var before := run.sources;
    for i := 0 to |run.sources|
      invariant |run.sources| == |before|
      invariant forall k :: 0 <= k < i ==>
                run.sources[k] == if before[k].id in sourceIds then MarkedSource(before[k]) else before[k]
      invariant forall k :: i <= k < |before| ==> run.sources[k] == before[k]
    {
      if run.sources[i].id in sourceIds {
        run.sources := run.sources[i := MarkedSource(run.sources[i])];
      }
    }
  }

  method MarkConflictingEvidence(run: ResearchRun)
    modifies run`evidence, run`sources
    ensures MarkedFrom(old(run.Data()), run.Data())
  {
    ghost var d := run.Data();
    hide InConflict, MarkedEvidence, MarkedSource;
    var conflicting := ConflictingIds(run.Data());
    if conflicting == {} {
      return;
    }
    var sourceIds := MarkEvidence(run, conflicting);
    assert forall id :: id in sourceIds <==> SourceInConflict(d, id);
    MarkSources(run, sourceIds);
  }
}
