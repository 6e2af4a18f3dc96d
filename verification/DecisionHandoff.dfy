/**
 The decision-owned side of the handoff: attaching compiled research evidence to a DRAFT decision file,
 once per handoff id, from the expected version of the file, with a chained audit event.
 */
module DecisionHandoff {
  import opened Wrappers
  import opened DecisionContracts

  datatype Store = Store(documents: map<(Id, Id), Document>, handoffs: set<(Id, Id, Id, HandoffId)>)

  // ---------------------------------------------------------------- the semantic rules a handoff can break

  predicate Distinct<T(==)>(s: seq<T>) {
    forall i, j :: 0 <= i < j < |s| ==> s[i] != s[j]
  }

  predicate DistinctIds(rows: seq<EvidenceRow>) {
    forall i, j :: 0 <= i < j < |rows| ==> rows[i].id != rows[j].id
  }

  predicate ClaimsKnown(refs: seq<Id>, claims: seq<Id>) {
    forall r :: r in refs ==> r in claims
  }

  predicate SemanticallyValid(d: Document) {
    && d.otherPartsValid
    && d.createdAt <= d.updatedAt
    && Distinct(d.claims)
    && DistinctIds(d.evidence)
    && (forall i :: 0 <= i < |d.evidence| ==> ClaimsKnown(d.evidence[i].claimRefs, d.claims))
  }

  predicate Linked(events: seq<DocEvent>, i: nat)
    requires i < |events|
  {
    events[i].previous == if i == 0 then None else Some(HashOfEvent(events[i - 1]))
  }

  predicate Chained(events: seq<DocEvent>) {
    forall i :: 0 <= i < |events| ==> Linked(events, i)
  }

  function TipHash(events: seq<DocEvent>): Option<EventHash> {
    if events == [] then None else Some(HashOfEvent(events[|events| - 1]))
  }

  lemma ChainAppend(events: seq<DocEvent>, e: DocEvent)
    requires Chained(events) && e.previous == TipHash(events)
    ensures Chained(events + [e])
  {
    forall i | 0 <= i < |events + [e]| ensures Linked(events + [e], i) {
      if i < |events| {
        assert Linked(events, i);
      }
    }
  }

  // ---------------------------------------------------------------- the handoff id

  /** The order evidence ids sort in; any total order would do. */
  predicate IdLess(a: EvidenceId, b: EvidenceId) {
    match (a, b)
    case (EvidenceId(r, h), EvidenceId(s, k)) => r < s || (r == s && h < k)
    case (EvidenceId(_, _), OtherEvidence(_)) => true
    case (OtherEvidence(_), EvidenceId(_, _)) => false
    case (OtherEvidence(m), OtherEvidence(n)) => m < n
  }

  function Insert(e: DecisionEvidence, sorted: seq<DecisionEvidence>): seq<DecisionEvidence> {
    if sorted == [] then [e]
    else if IdLess(e.id, sorted[0].id) then [e] + sorted
    else [sorted[0]] + Insert(e, sorted[1..])
  }

  /** A stable sort by evidence id. */
  function SortById(evidence: seq<DecisionEvidence>): seq<DecisionEvidence> {
    if evidence == [] then [] else Insert(evidence[|evidence| - 1], SortById(evidence[..|evidence| - 1]))
  }

  function HandoffPayload(evidence: seq<DecisionEvidence>): HandoffId {
    var sorted := SortById(evidence);
    HandoffId(seq(|sorted|, i requires 0 <= i < |sorted| => (sorted[i].id, sorted[i].contentHash, sorted[i].status)))
  }

  lemma {:induction false} InsertMembers(e: DecisionEvidence, sorted: seq<DecisionEvidence>)
    ensures multiset(Insert(e, sorted)) == multiset(sorted) + multiset{e}
  {
    hide IdLess;
    if sorted == [] || IdLess(e.id, sorted[0].id) {
      assert Insert(e, sorted) == [e] + sorted;
    } else {
      var rest := sorted[1..];
      InsertMembers(e, rest);
      assert sorted == [sorted[0]] + rest;
      assert Insert(e, sorted) == [sorted[0]] + Insert(e, rest);
    }
  }

  lemma {:induction false} SortMembers(evidence: seq<DecisionEvidence>)
    ensures multiset(SortById(evidence)) == multiset(evidence)
  {
    hide Insert;
    if evidence != [] {
      var init, last := evidence[..|evidence| - 1], evidence[|evidence| - 1];
      SortMembers(init);
      InsertMembers(last, SortById(init));
      assert evidence == init + [last];
      assert multiset(evidence) == multiset(init) + multiset{last};
    }
  }

  predicate ListsId(h: HandoffId, id: EvidenceId) {
    exists i :: 0 <= i < |h.items| && h.items[i].0 == id
  }

  /** A handoff id lists exactly the ids of the evidence it was computed from. */
  lemma PayloadListsIds(evidence: seq<DecisionEvidence>, id: EvidenceId)
    ensures ListsId(HandoffPayload(evidence), id) <==> exists e :: e in evidence && e.id == id
  {
    SortMembers(evidence);
    var sorted, h := SortById(evidence), HandoffPayload(evidence);
    if i :| 0 <= i < |h.items| && h.items[i].0 == id {
      assert sorted[i] in multiset(sorted);
      assert sorted[i] in evidence;
    }
    if e :| e in evidence && e.id == id {
      assert e in multiset(evidence);
      var i :| 0 <= i < |sorted| && sorted[i] == e;
      assert h.items[i].0 == id;
    }
  }

  predicate SortedItems(items: seq<(EvidenceId, Id, EvidenceStatus)>) {
    forall i, j :: 0 <= i < j < |items| ==> !IdLess(items[j].0, items[i].0)
  }

  function ItemsOf(evidence: seq<DecisionEvidence>): seq<(EvidenceId, Id, EvidenceStatus)> {
    seq(|evidence|, i requires 0 <= i < |evidence| => (evidence[i].id, evidence[i].contentHash, evidence[i].status))
  }

  predicate SortedById(s: seq<DecisionEvidence>) {
    forall i, j :: 0 <= i < j < |s| ==> !IdLess(s[j].id, s[i].id)
  }

  lemma {:induction false} InsertSorted(e: DecisionEvidence, sorted: seq<DecisionEvidence>)
    requires SortedById(sorted)
    ensures SortedById(Insert(e, sorted))
  {
    var r := Insert(e, sorted);
    if sorted != [] && !IdLess(e.id, sorted[0].id) {
      var rest := Insert(e, sorted[1..]);
      InsertSorted(e, sorted[1..]);
      InsertMembers(e, sorted[1..]);
      forall x | x in rest ensures !IdLess(x.id, sorted[0].id) {
        assert x in multiset(rest);
        assert x == e || x in sorted[1..];
      }
    }
  }

  lemma {:induction false} SortIsSorted(evidence: seq<DecisionEvidence>)
    ensures SortedById(SortById(evidence))
  {
    if evidence != [] {
      SortIsSorted(evidence[..|evidence| - 1]);
      InsertSorted(evidence[|evidence| - 1], SortById(evidence[..|evidence| - 1]));
    }
  }

  lemma ItemsOfConcat(a: seq<DecisionEvidence>, b: seq<DecisionEvidence>)
    ensures ItemsOf(a + b) == ItemsOf(a) + ItemsOf(b)
  {
  }

  lemma {:induction false} InsertItems(e: DecisionEvidence, sorted: seq<DecisionEvidence>)
    ensures multiset(ItemsOf(Insert(e, sorted))) == multiset(ItemsOf(sorted)) + multiset(ItemsOf([e]))
  {
    if sorted == [] || IdLess(e.id, sorted[0].id) {
      assert Insert(e, sorted) == [e] + sorted;
      ItemsOfConcat([e], sorted);
    } else {
      var first, rest := [sorted[0]], sorted[1..];
      InsertItems(e, rest);
      assert sorted == first + rest && Insert(e, sorted) == first + Insert(e, rest);
      hide Insert, ItemsOf, IdLess;
      ItemsOfConcat(first, rest);
      ItemsOfConcat(first, Insert(e, rest));
    }
  }

  lemma {:induction false} SortItems(evidence: seq<DecisionEvidence>)
    ensures multiset(ItemsOf(SortById(evidence))) == multiset(ItemsOf(evidence))
  {
    if evidence != [] {
      var init, last := evidence[..|evidence| - 1], evidence[|evidence| - 1];
      hide Insert, ItemsOf;
      SortItems(init);
      InsertItems(last, SortById(init));
      assert evidence == init + [last];
      ItemsOfConcat(init, [last]);
    }
  }

  /** A handoff id lists the id, hash and status of every item it was computed from, in the order of the ids. */
  lemma PayloadListsItems(evidence: seq<DecisionEvidence>)
    ensures var items := HandoffPayload(evidence).items;
      && SortedItems(items)
      && multiset(items) == multiset(seq(|evidence|, i requires 0 <= i < |evidence| =>
                                       (evidence[i].id, evidence[i].contentHash, evidence[i].status)))
  {
    SortIsSorted(evidence);
    SortItems(evidence);
    assert HandoffPayload(evidence).items == ItemsOf(SortById(evidence));
  }

  // ---------------------------------------------------------------- attach, on a store value

  function ToRow(e: DecisionEvidence): EvidenceRow {
    EvidenceRow(e.id, e.claimRefs, Some(e.run), e.status, e.observedAt, e.contentHash)
  }

  function IdsOf(rows: seq<EvidenceRow>): set<EvidenceId> {
    set i | 0 <= i < |rows| :: rows[i].id
  }

  /** Rows for the items whose id the file did not have at the start. */
  function NewRows(evidence: seq<DecisionEvidence>, existing: set<EvidenceId>): seq<EvidenceRow> {
    if evidence == [] then []
    else
      NewRows(evidence[..|evidence| - 1], existing)
        + if evidence[|evidence| - 1].id in existing then [] else [ToRow(evidence[|evidence| - 1])]
  }

  function Latest(evidence: seq<DecisionEvidence>): int
    requires evidence != []
  {
    if |evidence| == 1 then evidence[0].observedAt
    else
      var rest, last := Latest(evidence[..|evidence| - 1]), evidence[|evidence| - 1].observedAt;
      if rest < last then last else rest
  }

  function Extended(d: Document, evidence: seq<DecisionEvidence>): Document
    requires evidence != []
  {
    var now := Latest(evidence);
    d.(evidence := d.evidence + NewRows(evidence, IdsOf(d.evidence)), updatedAt := now,
       events := d.events + [DocEvent(Attached(HandoffPayload(evidence)), now, Draft, Draft, TipHash(d.events))])
  }

  /** The checks on the evidence alone. */
  function Precheck(evidence: seq<DecisionEvidence>): Option<HandoffError> {
    if evidence == [] then Some(NoUsableEvidence)
    else if exists i :: 0 <= i < |evidence| && evidence[i].run != evidence[0].run then Some(MixedResearchRuns)
    else if evidence[0].correlationId.None?
         || exists i :: 0 <= i < |evidence| && evidence[i].correlationId != evidence[0].correlationId
    then Some(CorrelationContextRequired)
    else None
  }

  function HandoffKey(tenant: Id, file: Id, evidence: seq<DecisionEvidence>): (Id, Id, Id, HandoffId)
    requires evidence != []
  {
    (tenant, evidence[0].run, file, HandoffPayload(evidence))
  }

  function AttachOn(s: Store, tenant: Id, file: Id, expected: DocHash, evidence: seq<DecisionEvidence>)
    : (Store, Result<Document, HandoffError>)
  {
    if Precheck(evidence).Some? then (s, Failure(Precheck(evidence).value))
    else if (tenant, file) !in s.documents then (s, Failure(DecisionNotFound))
    else
      var d, key := s.documents[(tenant, file)], HandoffKey(tenant, file, evidence);
      if key in s.handoffs then (s, Success(d))
      else if expected != HashOfDocument(d) then (s, Failure(DocumentChanged))
      else if !d.status.Draft? then (s, Failure(NotDraft))
      else if exists i :: 0 <= i < |evidence| && !ClaimsKnown(evidence[i].claimRefs, d.claims)
        then (s, Failure(ClaimReferenceNotFound))
      else if !SemanticallyValid(Extended(d, evidence)) then (s, Failure(SemanticError))
      else
        (Store(s.documents[(tenant, file) := Extended(d, evidence)], s.handoffs + {key}),
          Success(Extended(d, evidence)))
  }

  // ---------------------------------------------------------------- what an attach writes

  /** The row says of the item what the file keeps of it. */
  predicate Carries(row: EvidenceRow, e: DecisionEvidence) {
    && row.id == e.id && row.claimRefs == e.claimRefs && row.sourceRun == Some(e.run) && row.status == e.status
    && row.observedAt == e.observedAt && row.contentHash == e.contentHash
  }

  predicate Lacks(before: seq<EvidenceRow>, id: EvidenceId) {
    forall row :: row in before ==> row.id != id
  }

  /** The rows are those of the items, in their order, whose id the file lacked; `places` are where these stand. */
  ghost predicate RowsFor(
    before: seq<EvidenceRow>, evidence: seq<DecisionEvidence>, added: seq<EvidenceRow>, places: seq<nat>)
  {
    && |places| == |added|
    && (forall m, n :: 0 <= m < n < |places| ==> places[m] < places[n])
    && (forall i: nat :: i in places <==> i < |evidence| && Lacks(before, evidence[i].id))
    && (forall m :: 0 <= m < |added| ==> places[m] < |evidence| && Carries(added[m], evidence[places[m]]))
  }

  predicate LatestOf(evidence: seq<DecisionEvidence>, time: int) {
    && (exists e :: e in evidence && e.observedAt == time)
    && (forall e :: e in evidence ==> e.observedAt <= time)
  }

  /** Exactly one file changed: it got the missing rows, the latest observation time and one linked event. */
  ghost predicate AttachedTo(s: Store, s': Store, tenant: Id, file: Id, evidence: seq<DecisionEvidence>) {
    && evidence != [] && (tenant, file) in s.documents && (tenant, file) in s'.documents
    && s'.documents == s.documents[(tenant, file) := s'.documents[(tenant, file)]]
    && s'.handoffs == s.handoffs + {(tenant, evidence[0].run, file, HandoffPayload(evidence))}
    && var d, d' := s.documents[(tenant, file)], s'.documents[(tenant, file)];
       && d' == d.(evidence := d'.evidence, updatedAt := d'.updatedAt, events := d'.events)
       && d.evidence <= d'.evidence && LatestOf(evidence, d'.updatedAt)
       && (exists places :: RowsFor(d.evidence, evidence, d'.evidence[|d.evidence|..], places))
       && |d'.events| == |d.events| + 1 && d.events <= d'.events
       && var e := d'.events[|d.events|];
          && e.kind == Attached(HandoffPayload(evidence)) && e.occurredAt == d'.updatedAt
          && e.fromStatus == Draft && e.toStatus == Draft
          && e.previous == if d.events == [] then None else Some(HashOfEvent(d.events[|d.events| - 1]))
  }

  lemma KnownAddsNothing(
    before: seq<EvidenceRow>, evidence: seq<DecisionEvidence>, e: DecisionEvidence, added: seq<EvidenceRow>,
    places: seq<nat>)
    requires RowsFor(before, evidence, added, places) && !Lacks(before, e.id)
    ensures RowsFor(before, evidence + [e], added, places)
  {
    assert forall i :: 0 <= i < |evidence| ==> (evidence + [e])[i] == evidence[i];
    hide Carries;
  }

  lemma MissingAddsItsRow(
    before: seq<EvidenceRow>, evidence: seq<DecisionEvidence>, e: DecisionEvidence, added: seq<EvidenceRow>,
    places: seq<nat>)
    requires RowsFor(before, evidence, added, places) && Lacks(before, e.id)
    ensures RowsFor(before, evidence + [e], added + [ToRow(e)], places + [|evidence|])
  {
    var all, rows, stands := evidence + [e], added + [ToRow(e)], places + [|evidence|];
    assert forall m :: 0 <= m < |places| ==> places[m] in places;
    assert forall i :: 0 <= i < |evidence| ==> all[i] == evidence[i];
    assert Carries(ToRow(e), e);
    hide Carries;
    assert forall i: nat :: i in stands <==> i in places || i == |evidence|;
  }

  lemma {:induction false} NewRowsAre(before: seq<EvidenceRow>, evidence: seq<DecisionEvidence>)
    returns (places: seq<nat>)
    ensures RowsFor(before, evidence, NewRows(evidence, IdsOf(before)), places)
  {
    if evidence == [] {
      places := [];
    } else {
      var init, last := evidence[..|evidence| - 1], evidence[|evidence| - 1];
      var sofar := NewRowsAre(before, init);
      assert evidence == init + [last];
      assert last.id in IdsOf(before) <==> !Lacks(before, last.id);
      hide RowsFor, Lacks, IdsOf;
      if last.id in IdsOf(before) {
        KnownAddsNothing(before, init, last, NewRows(init, IdsOf(before)), sofar);
        places := sofar;
      } else {
        MissingAddsItsRow(before, init, last, NewRows(init, IdsOf(before)), sofar);
        places := sofar + [|init|];
      }
    }
  }

  lemma {:induction false} LatestIs(evidence: seq<DecisionEvidence>)
    requires evidence != []
    ensures LatestOf(evidence, Latest(evidence))
  {
    if |evidence| > 1 {
      var init, last := evidence[..|evidence| - 1], evidence[|evidence| - 1];
      LatestIs(init);
      assert forall e :: e in evidence <==> e in init || e == last;
    }
  }

  lemma AttachWrites(s: Store, tenant: Id, file: Id, expected: DocHash, evidence: seq<DecisionEvidence>)
    requires AttachOn(s, tenant, file, expected, evidence).1.Success?
    ensures var s' := AttachOn(s, tenant, file, expected, evidence).0;
      s' != s ==> AttachedTo(s, s', tenant, file, evidence)
  {
    hide SemanticallyValid, NewRows, Latest, HandoffPayload, LatestOf, RowsFor;
    var s' := AttachOn(s, tenant, file, expected, evidence).0;
    if s' != s {
      var d, d' := s.documents[(tenant, file)], s'.documents[(tenant, file)];
      LatestIs(evidence);
      var places := NewRowsAre(d.evidence, evidence);
      assert d'.evidence[|d.evidence|..] == NewRows(evidence, IdsOf(d.evidence));
    }
  }

  ghost predicate Mixed(evidence: seq<DecisionEvidence>) {
    exists a, b :: a in evidence && b in evidence && a.run != b.run
  }

  /** Some item has no correlation id, or two have different ones. */
  ghost predicate Uncorrelated(evidence: seq<DecisionEvidence>) {
    exists a, b :: a in evidence && b in evidence && (a.correlationId == None || a.correlationId != b.correlationId)
  }

  ghost predicate NamesStrangers(evidence: seq<DecisionEvidence>, claims: seq<Id>) {
    exists e, c :: e in evidence && c in e.claimRefs && c !in claims
  }

  lemma PrecheckExactly(evidence: seq<DecisionEvidence>)
    ensures Precheck(evidence) ==
            if evidence == [] then Some(NoUsableEvidence)
            else if Mixed(evidence) then Some(MixedResearchRuns)
            else if Uncorrelated(evidence) then Some(CorrelationContextRequired)
            else None
  {
    if evidence != [] {
      var first := evidence[0];
      assert first in evidence;
      assert forall i :: 0 <= i < |evidence| ==> evidence[i] in evidence;
      if a, b :| a in evidence && b in evidence && a.run != b.run {
        assert a.run != first.run || b.run != first.run;
      }
      if a, b :| a in evidence && b in evidence && (a.correlationId == None || a.correlationId != b.correlationId) {
        assert first.correlationId.None? || a.correlationId != first.correlationId
          || b.correlationId != first.correlationId;
      }
    }
  }

  lemma StrangersExactly(evidence: seq<DecisionEvidence>, claims: seq<Id>)
    ensures NamesStrangers(evidence, claims) <==>
            exists i :: 0 <= i < |evidence| && !ClaimsKnown(evidence[i].claimRefs, claims)
  {
    if i :| 0 <= i < |evidence| && !ClaimsKnown(evidence[i].claimRefs, claims) {
      assert evidence[i] in evidence;
    }
  }

  /** The file is in order apart from the new rows, some item is no older than it, and no missing id comes twice. */
  ghost predicate FitsAfter(d: Document, evidence: seq<DecisionEvidence>) {
    && d.otherPartsValid && Distinct(d.claims) && DistinctIds(d.evidence)
    && (forall row :: row in d.evidence ==> ClaimsKnown(row.claimRefs, d.claims))
    && (exists e :: e in evidence && d.createdAt <= e.observedAt)
    && (forall i, j :: 0 <= i < j < |evidence| && evidence[i].id == evidence[j].id ==>
         !Lacks(d.evidence, evidence[i].id))
  }

  lemma RowsDistinctExactly(
    before: seq<EvidenceRow>, evidence: seq<DecisionEvidence>, added: seq<EvidenceRow>, places: seq<nat>)
    requires RowsFor(before, evidence, added, places)
    ensures DistinctIds(before + added) <==>
            && DistinctIds(before)
            && forall i, j :: 0 <= i < j < |evidence| && evidence[i].id == evidence[j].id ==>
                 !Lacks(before, evidence[i].id)
  {
    var all := before + added;
    if i, j :| 0 <= i < j < |evidence| && evidence[i].id == evidence[j].id && Lacks(before, evidence[i].id) {
      MissingTwice(before, evidence, added, places, i, j);
    }
    assert forall i :: 0 <= i < |before| ==> all[i] == before[i];
    assert DistinctIds(all) ==> DistinctIds(before);
    hide Carries;
    if DistinctIds(before)
      && forall i, j :: 0 <= i < j < |evidence| && evidence[i].id == evidence[j].id ==> !Lacks(before, evidence[i].id)
    {
      forall a, b | 0 <= a < b < |all| ensures all[a].id != all[b].id {
        if b >= |before| {
          RowIsMissing(before, evidence, added, places, b - |before|);
          if a >= |before| {
            RowIsMissing(before, evidence, added, places, a - |before|);
          } else {
            assert before[a] in before;
          }
        }
      }
    }
  }

  lemma MissingTwice(
    before: seq<EvidenceRow>, evidence: seq<DecisionEvidence>, added: seq<EvidenceRow>, places: seq<nat>, i: nat,
    j: nat)
    requires RowsFor(before, evidence, added, places)
    requires i < j < |evidence| && evidence[i].id == evidence[j].id && Lacks(before, evidence[i].id)
    ensures !DistinctIds(before + added)
  {
    assert i in places && j in places;
    var m :| 0 <= m < |places| && places[m] == i;
    var n :| 0 <= n < |places| && places[n] == j;
    assert (before + added)[|before| + m].id == (before + added)[|before| + n].id;
  }

  lemma RowIsMissing(
    before: seq<EvidenceRow>, evidence: seq<DecisionEvidence>, added: seq<EvidenceRow>, places: seq<nat>, m: nat)
    requires RowsFor(before, evidence, added, places) && m < |added|
    ensures places[m] < |evidence| && Carries(added[m], evidence[places[m]]) && Lacks(before, added[m].id)
    ensures added[m].id == evidence[places[m]].id
  {
    assert places[m] in places;
  }

  lemma FitsExactly(d: Document, evidence: seq<DecisionEvidence>)
    requires evidence != [] && !NamesStrangers(evidence, d.claims)
    ensures SemanticallyValid(Extended(d, evidence)) <==> FitsAfter(d, evidence)
  {
    hide Carries, RowsFor, NewRows, Latest, HandoffPayload, Lacks, Distinct, DistinctIds;
    var places := NewRowsAre(d.evidence, evidence);
    var added := NewRows(evidence, IdsOf(d.evidence));
    RowsDistinctExactly(d.evidence, evidence, added, places);
    LatestIs(evidence);
    ClaimsOfRows(d, evidence, added, places);
  }

  lemma ClaimsOfRows(d: Document, evidence: seq<DecisionEvidence>, added: seq<EvidenceRow>, places: seq<nat>)
    requires RowsFor(d.evidence, evidence, added, places) && !NamesStrangers(evidence, d.claims)
    ensures (forall i :: 0 <= i < |d.evidence + added| ==>
            ClaimsKnown((d.evidence + added)[i].claimRefs, d.claims)) <==>
            (forall row :: row in d.evidence ==> ClaimsKnown(row.claimRefs, d.claims))
  {
    var all := d.evidence + added;
    forall m | 0 <= m < |added| ensures ClaimsKnown(added[m].claimRefs, d.claims) {
      RowIsMissing(d.evidence, evidence, added, places, m);
      assert evidence[places[m]] in evidence;
    }
    assert forall i :: 0 <= i < |d.evidence| ==> all[i] == d.evidence[i];
    hide ClaimsKnown, Carries, NamesStrangers, RowsFor;
    forall row | (forall i :: 0 <= i < |all| ==> ClaimsKnown(all[i].claimRefs, d.claims)) && row in d.evidence
      ensures ClaimsKnown(row.claimRefs, d.claims)
    {
      var i :| 0 <= i < |d.evidence| && d.evidence[i] == row;
      assert all[i] == row;
    }
  }

  /** Which refusal, on the inputs alone; anything else is a replay or a fresh attach. */
  lemma RefusalsExactly(s: Store, tenant: Id, file: Id, expected: DocHash, evidence: seq<DecisionEvidence>)
    ensures var r := AttachOn(s, tenant, file, expected, evidence).1;
      if evidence == [] then r == Failure(NoUsableEvidence)
      else if Mixed(evidence) then r == Failure(MixedResearchRuns)
      else if Uncorrelated(evidence) then r == Failure(CorrelationContextRequired)
      else if (tenant, file) !in s.documents then r == Failure(DecisionNotFound)
      else
        var d := s.documents[(tenant, file)];
        if (tenant, evidence[0].run, file, HandoffPayload(evidence)) in s.handoffs then r == Success(d)
        else if expected != HashOfDocument(d) then r == Failure(DocumentChanged)
        else if d.status != Draft then r == Failure(NotDraft)
        else if NamesStrangers(evidence, d.claims) then r == Failure(ClaimReferenceNotFound)
        else if !FitsAfter(d, evidence) then r == Failure(SemanticError)
        else r.Success?
  {
    hide SemanticallyValid, Extended, HandoffPayload, Mixed, Uncorrelated, NamesStrangers, Precheck, ClaimsKnown,
      FitsAfter;
    PrecheckExactly(evidence);
    if (tenant, file) in s.documents && evidence != [] {
      StrangersExactly(evidence, s.documents[(tenant, file)].claims);
      if !NamesStrangers(evidence, s.documents[(tenant, file)].claims) {
        FitsExactly(s.documents[(tenant, file)], evidence);
      }
    }
  }

  // ---------------------------------------------------------------- the adapter object

  class DecisionEvidenceHandoff {
    var documents: map<(Id, Id), Document>
    var handoffs: set<(Id, Id, Id, HandoffId)>

    function View(): Store
      reads this
    {
      Store(documents, handoffs)
    }

    method Attach(tenant: Id, file: Id, expected: DocHash, evidence: seq<DecisionEvidence>)
      returns (r: Result<Document, HandoffError>)
      modifies this`documents, this`handoffs
      ensures (View(), r) == AttachOn(old(View()), tenant, file, expected, evidence)
      ensures r.Success? && View() != old(View()) ==>
                AttachedTo(old(View()), View(), tenant, file, evidence) && r.value == documents[(tenant, file)]
    {
      var refused := Precheck(evidence);
      if refused.Some? {
        return Failure(refused.value);
      }
      if (tenant, file) !in documents {
        return Failure(DecisionNotFound);
      }
      var document, key := documents[(tenant, file)], HandoffKey(tenant, file, evidence);
      if key in handoffs {
        return Success(document);
      }
      if expected != HashOfDocument(document) {
        return Failure(DocumentChanged);
      }
      if document.status != Draft {
        return Failure(NotDraft);
      }
      if exists i :: 0 <= i < |evidence| && !ClaimsKnown(evidence[i].claimRefs, document.claims) {
        return Failure(ClaimReferenceNotFound);
      }
      var existing := IdsOf(document.evidence);
      var rows := document.evidence;
      for i := 0 to |evidence|
        invariant rows == document.evidence + NewRows(evidence[..i], existing)
      {
        assert evidence[..i + 1][..i] == evidence[..i];
        if evidence[i].id !in existing {
          rows := rows + [ToRow(evidence[i])];
        }
      }
      assert evidence[..|evidence|] == evidence;
      var now := Latest(evidence);
      var event := DocEvent(Attached(HandoffPayload(evidence)), now, Draft, Draft, TipHash(document.events));
      document := document.(evidence := rows, updatedAt := now, events := document.events + [event]);
      if !SemanticallyValid(document) {
        return Failure(SemanticError);
      }
      AttachWrites(View(), tenant, file, expected, evidence);
      documents := documents[(tenant, file) := document];
      handoffs := handoffs + {key};
      return Success(document);
    }
  }

  // ---------------------------------------------------------------- any sequence of handoffs

  /** Handoffs from any runs, interleaved with status changes of the files, which append a linked event. */
  datatype Op =
    | OpAttach(tenant: Id, file: Id, expected: DocHash, evidence: seq<DecisionEvidence>)
    | OpTransition(tenant: Id, file: Id, target: CaseStatus, now: int)

  function TransitionOn(s: Store, tenant: Id, file: Id, target: CaseStatus, now: int): Store {
    if (tenant, file) !in s.documents then s
    else
      var d := s.documents[(tenant, file)];
      s.(documents := s.documents[(tenant, file) :=
           d.(status := target, updatedAt := now,
              events := d.events + [DocEvent(Transitioned, now, d.status, target, TipHash(d.events))])])
  }

  function Apply(s: Store, op: Op): Store {
    match op
    case OpAttach(tenant, file, expected, evidence) => AttachOn(s, tenant, file, expected, evidence).0
    case OpTransition(tenant, file, target, now) => TransitionOn(s, tenant, file, target, now)
  }

  /** Every file's evidence ids are distinct, its log is a chain, and the recorded handoffs are all in it. */
  predicate FileInv(s: Store, tenant: Id, file: Id) {
    (tenant, file) in s.documents ==>
      && DistinctIds(s.documents[(tenant, file)].evidence)
      && Chained(s.documents[(tenant, file)].events)
  }

  /** All the evidence a recorded handoff lists is in its file. */
  ghost predicate HandoffInv(s: Store, key: (Id, Id, Id, HandoffId)) {
    key in s.handoffs ==>
      && (key.0, key.2) in s.documents
      && forall id :: ListsId(key.3, id) ==> id in IdsOf(s.documents[(key.0, key.2)].evidence)
  }

  ghost predicate Inv(s: Store) {
    && (forall tenant, file :: FileInv(s, tenant, file))
    && (forall key :: HandoffInv(s, key))
  }

  ghost predicate History(ops: seq<Op>, ss: seq<Store>) {
    && |ss| == |ops| + 1
    && Inv(ss[0])
    && forall i {:trigger ops[i]} :: 0 <= i < |ops| ==> ss[i + 1] == Apply(ss[i], ops[i])
  }

  /** Evidence already in the file is never altered: the old list is a prefix of the new one. */
  predicate Grown(s: Store, s': Store, key: (Id, Id)) {
    key in s.documents ==> key in s'.documents && s.documents[key].evidence <= s'.documents[key].evidence
  }

  lemma {:induction false} NewRowsIds(evidence: seq<DecisionEvidence>, existing: set<EvidenceId>, e: DecisionEvidence)
    requires e in evidence
    ensures e.id in existing || e.id in IdsOf(NewRows(evidence, existing))
  {
    var init, last := evidence[..|evidence| - 1], evidence[|evidence| - 1];
    var rows, more := NewRows(init, existing), NewRows(evidence, existing);
    if e in init {
      NewRowsIds(init, existing, e);
      if e.id !in existing {
        var i :| 0 <= i < |rows| && rows[i].id == e.id;
        assert more[i].id == e.id;
      }
    } else {
      assert e == last;
      if e.id !in existing {
        assert more[|rows|].id == e.id;
      }
    }
  }

  /** After a successful attach, fresh or replayed, every item handed over is in the file. */
  lemma AttachedIsThere(s: Store, tenant: Id, file: Id, expected: DocHash, evidence: seq<DecisionEvidence>)
    requires Inv(s) && AttachOn(s, tenant, file, expected, evidence).1.Success?
    ensures var s' := AttachOn(s, tenant, file, expected, evidence).0;
      && (tenant, file) in s'.documents
      && AttachOn(s, tenant, file, expected, evidence).1.value == s'.documents[(tenant, file)]
      && evidence != [] && HandoffKey(tenant, file, evidence) in s'.handoffs
      && (forall e :: e in evidence ==> e.id in IdsOf(s'.documents[(tenant, file)].evidence))
      && (s' != s ==>
            forall e :: e in evidence && Lacks(s.documents[(tenant, file)].evidence, e.id) ==>
              exists row :: row in s'.documents[(tenant, file)].evidence && Carries(row, e))
  {
    if AttachOn(s, tenant, file, expected, evidence).0 != s {
      FreshRowsAreThere(s, tenant, file, expected, evidence);
    }
    hide SemanticallyValid, Carries, Latest;
    var s', key := AttachOn(s, tenant, file, expected, evidence).0, HandoffKey(tenant, file, evidence);
    var d, d' := s.documents[(tenant, file)], s'.documents[(tenant, file)];
    forall e | e in evidence ensures e.id in IdsOf(d'.evidence) {
      if key in s.handoffs {
        PayloadListsIds(evidence, e.id);
        assert HandoffInv(s, key);
      } else {
        NewRowsIds(evidence, IdsOf(d.evidence), e);
        IdsOfConcat(d.evidence, NewRows(evidence, IdsOf(d.evidence)));
      }
    }
  }

  lemma FreshRowsAreThere(s: Store, tenant: Id, file: Id, expected: DocHash, evidence: seq<DecisionEvidence>)
    requires AttachOn(s, tenant, file, expected, evidence).1.Success?
    requires AttachOn(s, tenant, file, expected, evidence).0 != s
    ensures var s' := AttachOn(s, tenant, file, expected, evidence).0;
      && (tenant, file) in s.documents && (tenant, file) in s'.documents
      && forall e :: e in evidence && Lacks(s.documents[(tenant, file)].evidence, e.id) ==>
           exists row :: row in s'.documents[(tenant, file)].evidence && Carries(row, e)
  {
    hide AttachOn, Carries, LatestOf;
    var s' := AttachOn(s, tenant, file, expected, evidence).0;
    AttachWrites(s, tenant, file, expected, evidence);
    var before, after := s.documents[(tenant, file)].evidence, s'.documents[(tenant, file)].evidence;
    var places :| RowsFor(before, evidence, after[|before|..], places);
    forall e | e in evidence && Lacks(before, e.id)
      ensures exists row :: row in after && Carries(row, e)
    {
      var i :| 0 <= i < |evidence| && evidence[i] == e;
      assert i in places;
      var m :| 0 <= m < |places| && places[m] == i;
      assert Carries(after[|before|..][m], e);
      assert after[|before| + m] in after;
    }
  }

  /** A refused attach leaves the store as it was. */
  lemma RefusalKeeps(s: Store, tenant: Id, file: Id, expected: DocHash, evidence: seq<DecisionEvidence>)
    requires AttachOn(s, tenant, file, expected, evidence).1.Failure?
    ensures AttachOn(s, tenant, file, expected, evidence).0 == s
  {
  }

  lemma IdsOfConcat(a: seq<EvidenceRow>, b: seq<EvidenceRow>)
    ensures IdsOf(a + b) == IdsOf(a) + IdsOf(b)
  {
    forall id | id in IdsOf(b) ensures id in IdsOf(a + b) {
      var i :| 0 <= i < |b| && b[i].id == id;
      assert (a + b)[|a| + i].id == id;
    }
    forall id | id in IdsOf(a) ensures id in IdsOf(a + b) {
      var i :| 0 <= i < |a| && a[i].id == id;
      assert (a + b)[i].id == id;
    }
  }

  lemma ApplyKeeps(s: Store, op: Op)
    requires Inv(s)
    ensures Inv(Apply(s, op))
    ensures forall key :: Grown(s, Apply(s, op), key)
    ensures s.handoffs <= Apply(s, op).handoffs
  {
    var s' := Apply(s, op);
    if s' != s {
      var file := (op.tenant, op.file);
      var d, d' := s.documents[file], s'.documents[file];
      assert FileInv(s, op.tenant, op.file);
      ChainAppend(d.events, d'.events[|d.events|]);
      assert d'.events == d.events + [d'.events[|d.events|]];
      forall tenant, other ensures FileInv(s', tenant, other) {
        assert FileInv(s, tenant, other);
      }
      if op.OpAttach? {
        IdsOfConcat(d.evidence, NewRows(op.evidence, IdsOf(d.evidence)));
      }
      forall key ensures HandoffInv(s', key) {
        assert HandoffInv(s, key);
        if key in s'.handoffs && key !in s.handoffs {
          AttachedIsThere(s, op.tenant, op.file, op.expected, op.evidence);
          forall id | ListsId(key.3, id) ensures id in IdsOf(d'.evidence) {
            PayloadListsIds(op.evidence, id);
          }
        }
      }
    }
  }

  lemma {:induction false} RunKeeps(ops: seq<Op>, ss: seq<Store>, i: nat)
    requires History(ops, ss) && i <= |ops|
    ensures Inv(ss[i])
  {
    if i > 0 {
      RunKeeps(ops, ss, i - 1);
      ApplyKeeps(ss[i - 1], ops[i - 1]);
      assert ss[i] == Apply(ss[i - 1], ops[i - 1]);
    }
  }

  /** Over any run, evidence in a file is only ever added to, and every recorded handoff stays recorded. */
  lemma {:induction false} EvidenceOnlyGrows(ops: seq<Op>, ss: seq<Store>, i: nat, j: nat, tenant: Id, file: Id)
    requires History(ops, ss) && i <= j <= |ops| && (tenant, file) in ss[i].documents
    ensures (tenant, file) in ss[j].documents
    ensures ss[i].documents[(tenant, file)].evidence <= ss[j].documents[(tenant, file)].evidence
    ensures DistinctIds(ss[j].documents[(tenant, file)].evidence) && Chained(ss[j].documents[(tenant, file)].events)
    ensures ss[i].handoffs <= ss[j].handoffs
  {
    RunKeeps(ops, ss, j);
    assert FileInv(ss[j], tenant, file);
    if i < j {
      EvidenceOnlyGrows(ops, ss, i, j - 1, tenant, file);
      RunKeeps(ops, ss, j - 1);
      ApplyKeeps(ss[j - 1], ops[j - 1]);
      assert ss[j] == Apply(ss[j - 1], ops[j - 1]);
      assert Grown(ss[j - 1], ss[j], (tenant, file));
    }
  }

  /** The row of an item attached afresh stays in its file, as it was written and as the only one with its id. */
  lemma AttachedStays(ops: seq<Op>, ss: seq<Store>, i: nat, j: nat, e: DecisionEvidence)
    requires History(ops, ss) && i < j <= |ops| && ops[i].OpAttach? && ss[i + 1] != ss[i] && e in ops[i].evidence
    requires var key := (ops[i].tenant, ops[i].file);
      key in ss[i].documents ==> Lacks(ss[i].documents[key].evidence, e.id)
    ensures var key := (ops[i].tenant, ops[i].file);
      && key in ss[j].documents
      && (exists row :: row in ss[j].documents[key].evidence && Carries(row, e))
      && (forall row :: row in ss[j].documents[key].evidence && row.id == e.id ==> Carries(row, e))
  {
    hide AttachOn, SemanticallyValid;
    var op, key := ops[i], (ops[i].tenant, ops[i].file);
    assert ss[i + 1] == Apply(ss[i], op);
    RefusalKeepsOrWrites(ss[i], op);
    FreshRowsAreThere(ss[i], op.tenant, op.file, op.expected, op.evidence);
    EvidenceOnlyGrows(ops, ss, i + 1, j, op.tenant, op.file);
    var row :| row in ss[i + 1].documents[key].evidence && Carries(row, e);
    assert row in ss[j].documents[key].evidence;
  }

  lemma RefusalKeepsOrWrites(s: Store, op: Op)
    requires op.OpAttach? && Apply(s, op) != s
    ensures AttachOn(s, op.tenant, op.file, op.expected, op.evidence).1.Success?
  {
  }

  /** A handoff changes a file only while it is a DRAFT and only from the very version the caller expected. */
  lemma ChangesOnlyExpectedDrafts(
    s: Store, tenant: Id, file: Id, expected: DocHash, evidence: seq<DecisionEvidence>, key: (Id, Id))
    requires var s' := AttachOn(s, tenant, file, expected, evidence).0;
      key in s.documents && (key in s'.documents ==> s'.documents[key] != s.documents[key])
    ensures key == (tenant, file) && s.documents[key].status.Draft? && expected == HashOfDocument(s.documents[key])
    ensures SemanticallyValid(AttachOn(s, tenant, file, expected, evidence).0.documents[key])
  {
  }

  /** Each handoff id takes effect at most once for a run and a file, however often it is sent. */
  lemma HandoffAtMostOnce(ops: seq<Op>, ss: seq<Store>, i: nat, j: nat)
    requires History(ops, ss) && i < j < |ops| && ops[i].OpAttach? && ops[j].OpAttach?
    requires ss[i + 1] != ss[i]
    requires ops[j].evidence != []
    requires HandoffKey(ops[i].tenant, ops[i].file, ops[i].evidence) ==
             HandoffKey(ops[j].tenant, ops[j].file, ops[j].evidence)
    ensures ss[j + 1] == ss[j]
  {
    var key := HandoffKey(ops[i].tenant, ops[i].file, ops[i].evidence);
    assert ss[i + 1] == Apply(ss[i], ops[i]);
    assert key in ss[i + 1].handoffs && (key.0, key.2) in ss[i + 1].documents;
    EvidenceOnlyGrows(ops, ss, i + 1, j, key.0, key.2);
    assert ss[j + 1] == Apply(ss[j], ops[j]);
  }
}
