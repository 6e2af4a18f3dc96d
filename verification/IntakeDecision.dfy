/** Compiling a ready intake into a decision file, and what the governance engine then says about that file. */
module IntakeDecision {
  import opened Wrappers
  import opened IntakeVerification
  import opened IntakeRuns
  import G = GovernanceEngine

  datatype Claim = Claim(id: nat, kind: FactType, value: Option<Value>, mandatory: bool)
  datatype EvidenceItem = EvidenceItem(id: Id, claimRefs: seq<nat>, status: G.EvidenceStatus)
  datatype Risk = Risk(high: bool, unresolved: bool)

  /** A collision-free hash of an audit event of the file. */
  datatype EventHash = HashOf(event: FileEvent)
  datatype FileEvent = FileEvent(number: nat, evaluated: bool, occurredAt: int, reasons: seq<G.Code>,
    previous: Option<EventHash>)

  /** `otherPartsValid`: the rules on approvals, reviews and the canonical action hold. */
  datatype DecisionFile = DecisionFile(
    createdAt: int, updatedAt: int, createdBy: Id, claims: seq<Claim>, evidence: seq<EvidenceItem>,
    constraints: seq<G.Constraint>, policies: seq<G.Policy>, conflicts: seq<G.Conflict>, risks: seq<Risk>,
    lastApprover: Option<Id>, otherPartsValid: bool, outcome: Option<G.Outcome>, reasons: seq<G.Code>,
    validations: seq<G.Outcome>, events: seq<FileEvent>)

  // ---------------------------------------------------------------- compiling

  datatype IntakeStatus = Received | Extracted | NeedsConfirmation | Ready | Compiled | RejectedIntake

  datatype CompileError = CompilationRejected

  const COMPILER: Id := 0

  const MANDATORY: set<ResultCode> := {
    MarginBelowMinimum, PolicyNotEffective, PolicyReferenceNotRegistered, SeparationOfDutiesViolation,
    GovernanceOverrideAttempt}

  function TrustedOf(cs: seq<Candidate>): seq<Candidate> {
    if cs == [] then []
    else TrustedOf(cs[..|cs| - 1]) + if Trusted(cs[|cs| - 1]) then [cs[|cs| - 1]] else []
  }

  function ClaimOf(c: Candidate, index: nat): Claim {
    Claim(index, c.kind, c.value, true)
  }

  function EvidenceOf(c: Candidate, index: nat): EvidenceItem {
    EvidenceItem(c.id, [index], G.VerifiedEvidence)
  }

  /** A reason code's name: its place among the rules. */
  function ConstraintOf(f: Finding): G.Constraint {
    G.Constraint(Some(f.number), None, if f.code in MANDATORY then G.Mandatory else G.ReviewRequired, false,
      Some(Place(f.code)))
  }

  function Compile(r: Report, policy: PolicyContext, status: IntakeStatus, now: int)
    : Result<DecisionFile, CompileError>
  {
    var trusted := TrustedOf(r.candidates);
    if status != Ready || !r.ready || r.unresolved != [] || trusted == [] then Failure(CompilationRejected)
    else
      Success(DecisionFile(
                now, now, COMPILER,
                seq(|trusted|, i requires 0 <= i < |trusted| => ClaimOf(trusted[i], i + 1)),
                EvidenceList(trusted),
                Constraints(r.findings),
                [G.Policy(Some(policy.id), false)], [], [], None, true, None, [], [],
                [FileEvent(1, false, now, [], None)]))
  }

  /** The trusted facts are those at these places, in order. */
  ghost predicate TrustedAt(cs: seq<Candidate>, trusted: seq<Candidate>, places: seq<nat>) {
    && |places| == |trusted|
    && (forall m, n :: 0 <= m < n < |places| ==> places[m] < places[n])
    && (forall i: nat :: i in places <==> i < |cs| && Trusted(cs[i]))
    && (forall m :: 0 <= m < |trusted| ==> places[m] < |cs| && trusted[m] == cs[places[m]])
  }

  lemma TrustedAtNext(init: seq<Candidate>, last: Candidate, trusted: seq<Candidate>, places: seq<nat>)
    requires TrustedAt(init, trusted, places)
    ensures if Trusted(last) then TrustedAt(init + [last], trusted + [last], places + [|init|])
            else TrustedAt(init + [last], trusted, places)
  {
    var cs := init + [last];
    assert forall i :: 0 <= i < |init| ==> init[i] == cs[i];
    assert forall m :: 0 <= m < |places| ==> places[m] in places;
    hide Trusted;
    if Trusted(last) {
      assert forall i: nat :: i in places + [|init|] <==> i in places || i == |init|;
    }
  }

  lemma {:induction false} TrustedPlaces(cs: seq<Candidate>) returns (places: seq<nat>)
    ensures TrustedAt(cs, TrustedOf(cs), places)
  {
    if cs == [] {
      places := [];
    } else {
      var init, last := cs[..|cs| - 1], cs[|cs| - 1];
      places := TrustedPlaces(init);
      assert cs == init + [last] && TrustedOf(init) + [] == TrustedOf(init);
      hide Trusted, TrustedAt;
      TrustedAtNext(init, last, TrustedOf(init), places);
      if Trusted(last) {
        places := places + [|init|];
      }
    }
  }

  /** The file of these facts and findings: a claim and its evidence for each fact, a constraint for each finding. */
  ghost predicate FileOf(d: DecisionFile, trusted: seq<Candidate>, findings: seq<Finding>, policy: Id, now: int) {
    && d.createdAt == now && d.updatedAt == now && d.outcome == None && d.validations == [] && d.conflicts == []
    && d.risks == [] && d.lastApprover == None && d.policies == [G.Policy(Some(policy), false)]
    && d.events == [FileEvent(1, false, now, [], None)]
    && |d.claims| == |d.evidence| == |trusted| && |d.constraints| == |findings|
    && (forall m :: 0 <= m < |trusted| ==>
          && d.claims[m] == Claim(m + 1, trusted[m].kind, trusted[m].value, true)
          && d.evidence[m] == EvidenceItem(trusted[m].id, [m + 1], G.VerifiedEvidence))
    && (forall m :: 0 <= m < |findings| ==> ConstrainedBy(d.constraints[m], findings[m]))
  }

  /** An unmet constraint named after the finding's rule, mandatory for five of the rules and for review otherwise. */
  predicate ConstrainedBy(c: G.Constraint, f: Finding) {
    && c.id == Some(f.number) && c.hard == None && !c.satisfied && c.reason == Some(Place(f.code))
    && c.grade == match f.code
                  case MarginBelowMinimum => G.Mandatory
                  case PolicyNotEffective => G.Mandatory
                  case PolicyReferenceNotRegistered => G.Mandatory
                  case SeparationOfDutiesViolation => G.Mandatory
                  case GovernanceOverrideAttempt => G.Mandatory
                  case _ => G.ReviewRequired
  }

  /** A READY intake whose report is ready, with nothing open and some trusted fact, compiles into exactly its file. */
  lemma CompiledExactly(r: Report, policy: PolicyContext, status: IntakeStatus, now: int)
    ensures Compile(r, policy, status, now).Success? <==>
            status == Ready && r.ready && r.unresolved == [] && exists c :: c in r.candidates && Trusted(c)
    ensures Compile(r, policy, status, now).Success? ==>
              exists trusted, places :: TrustedAt(r.candidates, trusted, places)
                && FileOf(Compile(r, policy, status, now).value, trusted, r.findings, policy.id, now)
  {
    var trusted := TrustedOf(r.candidates);
    var places := TrustedPlaces(r.candidates);
    assert trusted == [] <==> forall c :: c in r.candidates ==> !Trusted(c) by {
      if c :| c in r.candidates && Trusted(c) {
        TrustedOfMembers(r.candidates, c);
      }
      if trusted != [] {
        TrustedOfMembers(r.candidates, trusted[0]);
      }
    }
    hide Trusted, TrustedAt, TrustedOf;
    if Compile(r, policy, status, now).Success? {
      assert FileOf(Compile(r, policy, status, now).value, trusted, r.findings, policy.id, now);
    }
  }

  // ---------------------------------------------------------------- evaluating a decision file

  datatype SemanticError = SemanticError

  predicate KnownClaim(d: DecisionFile, ref: nat) {
    exists k :: 0 <= k < |d.claims| && d.claims[k].id == ref
  }

  predicate SemanticallyValid(d: DecisionFile) {
    && d.createdAt <= d.updatedAt
    && (forall i, j :: 0 <= i < j < |d.claims| ==> d.claims[i].id != d.claims[j].id)
    && DistinctEvidence(d.evidence)
    && (forall i :: 0 <= i < |d.evidence| ==> forall ref :: ref in d.evidence[i].claimRefs ==> KnownClaim(d, ref))
    && d.otherPartsValid
  }

  predicate Supported(evidence: seq<EvidenceItem>, claim: nat) {
    exists i :: 0 <= i < |evidence| && claim in evidence[i].claimRefs && evidence[i].status != G.Unavailable
  }

  predicate EvidenceMissing(claims: seq<Claim>, evidence: seq<EvidenceItem>) {
    exists k :: 0 <= k < |claims| && claims[k].mandatory && !Supported(evidence, claims[k].id)
  }

  function Inputs(evidence: seq<EvidenceItem>): seq<G.Evidence> {
    seq(|evidence|, i requires 0 <= i < |evidence| =>
      G.Evidence(Some(evidence[i].id), evidence[i].status, None, evidence[i].status == G.Fabricated, None, true, None))
  }

  predicate HighImpact(risks: seq<Risk>) {
    exists k :: 0 <= k < |risks| && risks[k].high
  }

  predicate Uncertain(risks: seq<Risk>) {
    exists k :: 0 <= k < |risks| && risks[k].unresolved
  }

  function RequestOf(d: DecisionFile): G.Request {
    G.Request(
      Inputs(d.evidence), EvidenceMissing(d.claims, d.evidence), d.constraints, d.policies, d.conflicts,
      Some(d.createdBy), d.lastApprover, HighImpact(d.risks), Uncertain(d.risks))
  }

  function Evaluate(d: DecisionFile, now: int): Result<(DecisionFile, G.Assessment), SemanticError> {
    if !SemanticallyValid(d) then Failure(SemanticError)
    else
      var a := G.AssessOn(RequestOf(d));
      var previous := if d.events == [] then None else Some(HashOf(d.events[|d.events| - 1]));
      Success((d.(outcome := Some(a.outcome), reasons := a.reasons, updatedAt := now,
        validations := d.validations + [a.outcome],
                  events := d.events + [FileEvent(|d.events| + 1, true, now, a.reasons, previous)]), a))
  }

  predicate Linked(events: seq<FileEvent>, i: nat)
    requires i < |events|
  {
    events[i].number == i + 1 && events[i].previous == if i == 0 then None else Some(HashOf(events[i - 1]))
  }

  predicate Chained(events: seq<FileEvent>) {
    forall i :: 0 <= i < |events| ==> Linked(events, i)
  }

  /** Evaluating records the verdict, keeps the log a chain, and changes nothing the verdict rests on. */
  lemma EvaluationOnlyRecords(d: DecisionFile, now: int)
    requires Chained(d.events) && Evaluate(d, now).Success?
    ensures var (d', a) := Evaluate(d, now).value;
      && Chained(d'.events) && d.events <= d'.events
      && RequestOf(d') == RequestOf(d)
      && d'.outcome == Some(a.outcome) && d'.reasons == a.reasons
      && a.outcome ==
         if G.Forbidden(RequestOf(d)) then G.Block else if G.Questionable(RequestOf(d)) then G.Review else G.Pass
  {
    G.VerdictExactly(RequestOf(d));
    hide SemanticallyValid, G.Found, G.Codes, G.Govern, G.Forbidden, G.Questionable;
    var d' := Evaluate(d, now).value.0;
    forall i | 0 <= i < |d'.events| ensures Linked(d'.events, i) {
      assert i < |d.events| ==> Linked(d.events, i);
    }
  }

  // ---------------------------------------------------------------- the verdict on a compiled intake

  predicate SharedId(cs: seq<Candidate>) {
    exists i, j :: 0 <= i < j < |cs| && Trusted(cs[i]) && Trusted(cs[j]) && cs[i].id == cs[j].id
  }

  lemma {:induction false} TrustedOfMembers(cs: seq<Candidate>, c: Candidate)
    ensures c in TrustedOf(cs) <==> c in cs && Trusted(c)
  {
    if cs != [] {
      var init := cs[..|cs| - 1];
      TrustedOfMembers(init, c);
      assert cs == init + [cs[|cs| - 1]];
    }
  }

  predicate Repeats(cs: seq<Candidate>) {
    exists i, j :: 0 <= i < j < |cs| && cs[i].id == cs[j].id
  }

  predicate Carries(cs: seq<Candidate>, id: Id) {
    exists i :: 0 <= i < |cs| && cs[i].id == id
  }

  predicate CarriesTrusted(cs: seq<Candidate>, id: Id) {
    exists i :: 0 <= i < |cs| && Trusted(cs[i]) && cs[i].id == id
  }

  lemma RepeatsAppend(cs: seq<Candidate>, c: Candidate)
    ensures Repeats(cs + [c]) <==> Repeats(cs) || Carries(cs, c.id)
  {
    var all := cs + [c];
    if Repeats(cs) {
      var i, j :| 0 <= i < j < |cs| && cs[i].id == cs[j].id;
      assert all[i].id == all[j].id;
    }
    if Carries(cs, c.id) {
      var i :| 0 <= i < |cs| && cs[i].id == c.id;
      assert all[i].id == all[|cs|].id;
    }
  }

  lemma SharedIdAppend(cs: seq<Candidate>, c: Candidate)
    ensures SharedId(cs + [c]) <==> SharedId(cs) || (Trusted(c) && CarriesTrusted(cs, c.id))
  {
    var all := cs + [c];
    if SharedId(cs) {
      var i, j :| 0 <= i < j < |cs| && Trusted(cs[i]) && Trusted(cs[j]) && cs[i].id == cs[j].id;
      assert Trusted(all[i]) && Trusted(all[j]) && all[i].id == all[j].id;
    }
    if Trusted(c) && CarriesTrusted(cs, c.id) {
      var i :| 0 <= i < |cs| && Trusted(cs[i]) && cs[i].id == c.id;
      assert Trusted(all[i]) && Trusted(all[|cs|]) && all[i].id == all[|cs|].id;
    }
    if SharedId(all) {
      var i, j :| 0 <= i < j < |all| && Trusted(all[i]) && Trusted(all[j]) && all[i].id == all[j].id;
      assert all[i] == cs[i];
      assert j < |cs| ==> all[j] == cs[j];
    }
  }

  lemma TrustedCarries(cs: seq<Candidate>, id: Id)
    ensures Carries(TrustedOf(cs), id) <==> CarriesTrusted(cs, id)
  {
    var trusted := TrustedOf(cs);
    if Carries(trusted, id) {
      var i :| 0 <= i < |trusted| && trusted[i].id == id;
      TrustedOfMembers(cs, trusted[i]);
    }
    if CarriesTrusted(cs, id) {
      var i :| 0 <= i < |cs| && Trusted(cs[i]) && cs[i].id == id;
      TrustedOfMembers(cs, cs[i]);
    }
  }

  lemma {:induction false} TrustedRepeatIffShared(cs: seq<Candidate>)
    ensures Repeats(TrustedOf(cs)) <==> SharedId(cs)
  {
    hide Repeats, SharedId, Carries, CarriesTrusted;
    if cs == [] {
      assert !Repeats([]) && !SharedId([]) by { NothingRepeats(); }
    } else {
      var init, last := cs[..|cs| - 1], cs[|cs| - 1];
      assert cs == init + [last];
      TrustedRepeatIffShared(init);
      TrustedCarries(init, last.id);
      RepeatsAppend(TrustedOf(init), last);
      SharedIdAppend(init, last);
      assert TrustedOf(init) + [] == TrustedOf(init);
    }
  }

  lemma NothingRepeats()
    ensures !Repeats([]) && !SharedId([])
  {
  }

  predicate DistinctEvidence(evidence: seq<EvidenceItem>) {
    forall i, j :: 0 <= i < j < |evidence| ==> evidence[i].id != evidence[j].id
  }

  function EvidenceList(trusted: seq<Candidate>): seq<EvidenceItem> {
    seq(|trusted|, i requires 0 <= i < |trusted| => EvidenceOf(trusted[i], i + 1))
  }

  lemma EvidenceIdsAreFactIds(trusted: seq<Candidate>)
    ensures DistinctEvidence(EvidenceList(trusted)) <==> !Repeats(trusted)
  {
    var evidence := EvidenceList(trusted);
    if Repeats(trusted) {
      var i, j :| 0 <= i < j < |trusted| && trusted[i].id == trusted[j].id;
      assert evidence[i].id == evidence[j].id;
    } else {
      forall i, j | 0 <= i < j < |evidence| ensures evidence[i].id != evidence[j].id {
        assert trusted[i].id != trusted[j].id;
      }
    }
  }

  /** Evaluating a compiled file is refused exactly when two trusted facts share an id. */
  lemma CompiledIsValid(r: Report, policy: PolicyContext, status: IntakeStatus, now: int)
    requires Compile(r, policy, status, now).Success?
    ensures SemanticallyValid(Compile(r, policy, status, now).value) <==> !SharedId(r.candidates)
  {
    hide SharedId, TrustedOf, Repeats, DistinctEvidence;
    TrustedRepeatIffShared(r.candidates);
    var trusted, d := TrustedOf(r.candidates), Compile(r, policy, status, now).value;
    EvidenceIdsAreFactIds(trusted);
    forall i | 0 <= i < |d.evidence| ensures KnownClaim(d, d.evidence[i].claimRefs[0]) {
      assert d.claims[i].id == i + 1;
    }
  }

  predicate HasMandatory(findings: seq<Finding>) {
    exists i :: 0 <= i < |findings| && findings[i].code in MANDATORY
  }

  /**
   Meaning is preserved from a ready intake to the verdict on its decision file: BLOCK exactly when a finding has one
   of the five mandatory codes, else REVIEW exactly when there is any finding, else PASS.
   */
  lemma CompiledVerdict(r: Report, policy: PolicyContext, status: IntakeStatus, now: int, later: int)
    requires Compile(r, policy, status, now).Success? && !SharedId(r.candidates)
    ensures var e := Evaluate(Compile(r, policy, status, now).value, later);
      && e.Success?
      && e.value.1.outcome ==
         if HasMandatory(r.findings) then G.Block else if r.findings != [] then G.Review else G.Pass
  {
    var d := Compile(r, policy, status, now).value;
    CompiledIsValid(r, policy, status, now);
    var q := RequestOf(d);
    G.VerdictExactly(q);
    CompiledConcerns(r, policy, status, now);
  }

  lemma CompiledConcerns(r: Report, policy: PolicyContext, status: IntakeStatus, now: int)
    requires Compile(r, policy, status, now).Success?
    ensures var q := RequestOf(Compile(r, policy, status, now).value);
      && (G.Forbidden(q) <==> HasMandatory(r.findings))
      && (r.findings != [] ==> G.Forbidden(q) || G.Questionable(q))
      && (G.Questionable(q) ==> r.findings != [])
  {
    var d := Compile(r, policy, status, now).value;
    var q := RequestOf(d);
    assert !EvidenceMissing(d.claims, d.evidence) by {
      forall k | 0 <= k < |d.claims| ensures Supported(d.evidence, d.claims[k].id) {
        assert d.claims[k].id in d.evidence[k].claimRefs;
      }
    }
    assert forall e :: e in q.evidence ==> !G.Doubtful(e) && !e.fabricated;
    assert q.constraints == Constraints(r.findings);
    hide Compile, RequestOf;
    ConstraintConcerns(r.findings);
  }

  function Constraints(findings: seq<Finding>): seq<G.Constraint> {
    seq(|findings|, i requires 0 <= i < |findings| => ConstraintOf(findings[i]))
  }

  lemma ConstraintConcerns(findings: seq<Finding>)
    ensures (exists c :: c in Constraints(findings) && G.Hard(c) && !c.satisfied) <==> HasMandatory(findings)
    ensures findings != [] ==>
            exists c :: c in Constraints(findings) && (G.Hard(c) || c.grade == G.ReviewRequired) && !c.satisfied
  {
    var cs := Constraints(findings);
    forall i | 0 <= i < |findings| ensures cs[i] in cs && (G.Hard(cs[i]) <==> findings[i].code in MANDATORY) {
    }
    if findings != [] {
      assert cs[0] in cs;
    }
  }

  // ---------------------------------------------------------------- from the policy to the verdict

  lemma VerifyKeepsIds(cs: seq<Candidate>, policy: Option<PolicyContext>)
    ensures |VerifyCandidates(cs, policy)| == |cs|
    ensures forall i :: 0 <= i < |cs| ==> VerifyCandidates(cs, policy)[i].id == cs[i].id
  {
  }

  lemma ApplyKeepsIds(r: Report, op: Op)
    ensures |Apply(r, op).candidates| == |r.candidates|
    ensures forall i :: 0 <= i < |r.candidates| ==> Apply(r, op).candidates[i].id == r.candidates[i].id
  {
    hide Findings, Malformed, Reasons, StillUnresolved;
    if op.OpReverify? {
      VerifyKeepsIds(r.candidates, op.policy);
    } else {
      var c := ConfirmFact(r, op.fact, op.action, op.actor, op.reasonGiven);
      if c.Success? {
        assert UpdatedFact(Current(r.candidates, op.fact), op.action, op.actor).id == op.fact;
      }
    }
  }

  /**
   Facts that leave the extraction with distinct ids keep them through any run, so a compiled file can be evaluated.
   */
  lemma {:induction false} RunsKeepIdsDistinct(
    e: Extraction, policy: Option<PolicyContext>, today: int, ops: seq<Op>, rs: seq<Report>, i: nat)
    requires History(e, policy, today, ops, rs) && i <= |ops|
    requires forall a, b :: 0 <= a < b < |e.candidates| ==> e.candidates[a].id != e.candidates[b].id
    ensures |rs[i].candidates| == |e.candidates|
    ensures forall a :: 0 <= a < |e.candidates| ==> rs[i].candidates[a].id == e.candidates[a].id
    ensures !SharedId(rs[i].candidates)
  {
    hide Findings, Malformed, Reasons, VerifyCandidates, ConfirmFact, ReverifyOn;
    if i == 0 {
      VerifyKeepsIds(e.candidates, policy);
    } else {
      RunsKeepIdsDistinct(e, policy, today, ops, rs, i - 1);
      assert rs[i] == Apply(rs[i - 1], ops[i - 1]);
      ApplyKeepsIds(rs[i - 1], ops[i - 1]);
    }
  }

  lemma FindingsMean(cs: seq<Candidate>, policy: PolicyContext, today: int)
    requires !Malformed(cs)
    ensures HasMandatory(Findings(cs, policy, today)) <==>
            exists code :: code in MANDATORY && Breached(cs, policy, today, code)
    ensures Findings(cs, policy, today) == [] <==> forall code :: !Breached(cs, policy, today, code)
  {
    var found := Findings(cs, policy, today);
    hide Breached, Malformed, Findings;
    forall code ensures HasCode(found, code) <==> Breached(cs, policy, today, code) {
      FindingIffBreached(cs, policy, today, code);
    }
    assert forall k :: 0 <= k < |found| ==> HasCode(found, found[k].code);
    assert found == [] || Breached(cs, policy, today, found[0].code);
    if code :| code in MANDATORY && HasCode(found, code) {
      var k :| 0 <= k < |found| && found[k].code == code;
      assert found[k].code in MANDATORY;
    }
  }
}
