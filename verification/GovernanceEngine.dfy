/** The governance engine: from an assessment request to findings and one of three outcomes. */
module GovernanceEngine {
  import opened Wrappers

  type Id = int

  datatype Outcome = Pass | Review | Block
  datatype Severity = BlockSeverity | ReviewSeverity

  datatype Code =
    | EvidenceUnverifiable | CitationFabricated | EvidenceOutdated | SourceClaimMismatch | EvidenceConflict
    | MandatoryEvidenceMissing | HardConstraintViolation | ConstraintRequiresReview | PolicyRequiresReview
    | SeparationOfDuties | HighImpactUncertainty | CriticalConflictUnresolved | ConflictUnresolved
    | AllRequiredChecksSatisfied | Named(code: Id)

  datatype EvidenceStatus = VerifiedEvidence | UnverifiedEvidence | OutdatedEvidence | ConflictingEvidence | Unavailable
    | Fabricated | OtherStatus

  /** An evidence entry; flags that may be absent fall back on the status. */
  datatype Evidence = Evidence(
    id: Option<Id>, status: EvidenceStatus, verifiable: Option<bool>, fabricated: bool, outdated: Option<bool>,
    supportsClaim: bool, contradictsClaim: Option<bool>)

  datatype Grade = Mandatory | ReviewRequired | OtherGrade
  datatype Constraint = Constraint(id: Option<Id>, hard: Option<bool>, grade: Grade, satisfied: bool,
    reason: Option<Id>)
  datatype Policy = Policy(id: Option<Id>, requiresReview: bool)
  datatype Conflict = Conflict(id: Option<Id>, resolved: bool, critical: bool)

  datatype Request = Request(
    evidence: seq<Evidence>, mandatoryMissing: bool, constraints: seq<Constraint>, policies: seq<Policy>,
    conflicts: seq<Conflict>, generator: Option<Id>, approver: Option<Id>, highImpact: bool,
    unresolvedUncertainty: bool)

  datatype Finding = Finding(code: Code, severity: Severity, subject: Option<Id>)

  // ---------------------------------------------------------------- one entry's findings

  function Flag(given: Option<bool>, fallback: bool): bool {
    if given.Some? then given.value else fallback
  }

  function When(b: bool, code: Code, severity: Severity, subject: Option<Id>): seq<Finding> {
    if b then [Finding(code, severity, subject)] else []
  }

  function OfEvidence(e: Evidence): seq<Finding> {
    When(!Flag(e.verifiable, e.status != UnverifiedEvidence), EvidenceUnverifiable, ReviewSeverity, e.id)
    + When(e.fabricated, CitationFabricated, BlockSeverity, e.id)
    + When(Flag(e.outdated, e.status == OutdatedEvidence), EvidenceOutdated, ReviewSeverity, e.id)
    + When(!e.supportsClaim, SourceClaimMismatch, ReviewSeverity, e.id)
    + When(Flag(e.contradictsClaim, e.status == ConflictingEvidence), EvidenceConflict, ReviewSeverity, e.id)
    + When(e.status == Unavailable, MandatoryEvidenceMissing, ReviewSeverity, e.id)
  }

  predicate Hard(c: Constraint) { Flag(c.hard, c.grade == Mandatory) }

  function OfConstraint(c: Constraint): seq<Finding> {
    if Hard(c) && !c.satisfied then [Finding(HardConstraintViolation, BlockSeverity, c.id)]
    else
      When(c.grade == ReviewRequired && !c.satisfied,
           if c.reason.Some? then Named(c.reason.value) else ConstraintRequiresReview, ReviewSeverity, c.id)
  }

  function OfPolicy(p: Policy): seq<Finding> {
    When(p.requiresReview, PolicyRequiresReview, ReviewSeverity, p.id)
  }

  function OfConflict(c: Conflict): seq<Finding> {
    When(!c.resolved, if c.critical then CriticalConflictUnresolved else ConflictUnresolved,
         if c.critical then BlockSeverity else ReviewSeverity, c.id)
  }

  function OfRequest(r: Request): seq<Finding> {
    When(r.generator.Some? && r.approver == r.generator, SeparationOfDuties, BlockSeverity, r.generator)
    + When(r.highImpact && r.unresolvedUncertainty, HighImpactUncertainty, ReviewSeverity, None)
  }

  // ---------------------------------------------------------------- collecting them

  function Collect<T>(items: seq<T>, of: T -> seq<Finding>): seq<Finding> {
    if items == [] then [] else Collect(items[..|items| - 1], of) + of(items[|items| - 1])
  }

  function Found(r: Request): seq<Finding> {
    Collect(r.evidence, OfEvidence)
    + When(r.mandatoryMissing, MandatoryEvidenceMissing, if r.highImpact then BlockSeverity else ReviewSeverity, None)
    + Collect(r.constraints, OfConstraint)
    + Collect(r.policies, OfPolicy)
    + OfRequest(r)
    + Collect(r.conflicts, OfConflict)
  }

  method Validate(r: Request) returns (found: seq<Finding>)
    ensures found == Found(r)
  {
    hide OfEvidence, OfConstraint, OfPolicy, OfRequest, OfConflict;
    found := [];
    for i := 0 to |r.evidence|
      invariant found == Collect(r.evidence[..i], OfEvidence)
    {
      assert r.evidence[..i + 1][..i] == r.evidence[..i];
      var ofItem := ValidateEvidence(r.evidence[i]);
      found := found + ofItem;
    }
    assert r.evidence[..|r.evidence|] == r.evidence;
    if r.mandatoryMissing {
      var severity := if r.highImpact then BlockSeverity else ReviewSeverity;
      found := found + [Finding(MandatoryEvidenceMissing, severity, None)];
    }
    var rest := ValidateConstraints(r.constraints);
    found := found + rest;
    rest := ValidatePolicies(r.policies);
    found := found + rest;
    rest := ValidateActorsAndRisk(r);
    found := found + rest;
    rest := ValidateConflicts(r.conflicts);
    found := found + rest;
  }

  method ValidateConstraints(constraints: seq<Constraint>) returns (found: seq<Finding>)
    ensures found == Collect(constraints, OfConstraint)
  {
    found := [];
    for i := 0 to |constraints|
      invariant found == Collect(constraints[..i], OfConstraint)
    {
      assert constraints[..i + 1][..i] == constraints[..i];
      var c := constraints[i];
      if Hard(c) && !c.satisfied {
        found := found + [Finding(HardConstraintViolation, BlockSeverity, c.id)];
      } else if c.grade == ReviewRequired && !c.satisfied {
        found := found + [Finding(if c.reason.Some? then Named(c.reason.value) else ConstraintRequiresReview,
          ReviewSeverity, c.id)];
      }
    }
    assert constraints[..|constraints|] == constraints;
  }

  method ValidatePolicies(policies: seq<Policy>) returns (found: seq<Finding>)
    ensures found == Collect(policies, OfPolicy)
  {
    found := [];
    for i := 0 to |policies|
      invariant found == Collect(policies[..i], OfPolicy)
    {
      assert policies[..i + 1][..i] == policies[..i];
      if policies[i].requiresReview {
        found := found + [Finding(PolicyRequiresReview, ReviewSeverity, policies[i].id)];
      }
    }
    assert policies[..|policies|] == policies;
  }

  method ValidateActorsAndRisk(r: Request) returns (found: seq<Finding>)
    ensures found == OfRequest(r)
  {
    found := [];
    if r.generator.Some? && r.approver == r.generator {
      found := found + [Finding(SeparationOfDuties, BlockSeverity, r.generator)];
    }
    if r.highImpact && r.unresolvedUncertainty {
      found := found + [Finding(HighImpactUncertainty, ReviewSeverity, None)];
    }
  }

  method ValidateConflicts(conflicts: seq<Conflict>) returns (found: seq<Finding>)
    ensures found == Collect(conflicts, OfConflict)
  {
    found := [];
    for i := 0 to |conflicts|
      invariant found == Collect(conflicts[..i], OfConflict)
    {
      assert conflicts[..i + 1][..i] == conflicts[..i];
      var c := conflicts[i];
      if !c.resolved {
        var severity := if c.critical then BlockSeverity else ReviewSeverity;
        found := found + [Finding(if severity.BlockSeverity? then CriticalConflictUnresolved else ConflictUnresolved,
          severity, c.id)];
      }
    }
    assert conflicts[..|conflicts|] == conflicts;
  }

  method ValidateEvidence(e: Evidence) returns (found: seq<Finding>)
    ensures found == OfEvidence(e)
  {
    found := [];
    if !Flag(e.verifiable, e.status != UnverifiedEvidence) {
      found := found + [Finding(EvidenceUnverifiable, ReviewSeverity, e.id)];
    }
    if e.fabricated {
      found := found + [Finding(CitationFabricated, BlockSeverity, e.id)];
    }
    assert found == When(!Flag(e.verifiable, e.status != UnverifiedEvidence), EvidenceUnverifiable, ReviewSeverity,
      e.id)
                    + When(e.fabricated, CitationFabricated, BlockSeverity, e.id);
    ghost var first := found;
    if Flag(e.outdated, e.status == OutdatedEvidence) {
      found := found + [Finding(EvidenceOutdated, ReviewSeverity, e.id)];
    }
    assert found == first + When(Flag(e.outdated, e.status == OutdatedEvidence), EvidenceOutdated, ReviewSeverity,
      e.id);
    ghost var second := found;
    if !e.supportsClaim {
      found := found + [Finding(SourceClaimMismatch, ReviewSeverity, e.id)];
    }
    assert found == second + When(!e.supportsClaim, SourceClaimMismatch, ReviewSeverity, e.id);
    ghost var third := found;
    if Flag(e.contradictsClaim, e.status == ConflictingEvidence) {
      found := found + [Finding(EvidenceConflict, ReviewSeverity, e.id)];
    }
    assert found == third + When(Flag(e.contradictsClaim, e.status == ConflictingEvidence), EvidenceConflict,
      ReviewSeverity, e.id);
    ghost var fourth := found;
    if e.status == Unavailable {
      found := found + [Finding(MandatoryEvidenceMissing, ReviewSeverity, e.id)];
    }
    assert found == fourth + When(e.status == Unavailable, MandatoryEvidenceMissing, ReviewSeverity, e.id);
    hide When, Flag;
  }

  // ---------------------------------------------------------------- the outcome, and what it means

  predicate HasBlock(found: seq<Finding>) {
    exists i :: 0 <= i < |found| && found[i].severity == BlockSeverity
  }

  function Govern(found: seq<Finding>): Outcome {
    if HasBlock(found) then Block else if found != [] then Review else Pass
  }

  /** Something in the request that no review can lift. */
  predicate Forbidden(r: Request) {
    || (exists e :: e in r.evidence && e.fabricated)
    || (r.mandatoryMissing && r.highImpact)
    || (exists c :: c in r.constraints && Hard(c) && !c.satisfied)
    || (r.generator.Some? && r.approver == r.generator)
    || (exists c :: c in r.conflicts && !c.resolved && c.critical)
  }

  predicate Doubtful(e: Evidence) {
    || !Flag(e.verifiable, e.status != UnverifiedEvidence) || Flag(e.outdated, e.status == OutdatedEvidence)
    || !e.supportsClaim || Flag(e.contradictsClaim, e.status == ConflictingEvidence) || e.status == Unavailable
  }

  /** Something in the request a person has to look at. */
  predicate Questionable(r: Request) {
    || (exists e :: e in r.evidence && Doubtful(e))
    || r.mandatoryMissing
    || (exists c :: c in r.constraints && c.grade == ReviewRequired && !c.satisfied)
    || (exists p :: p in r.policies && p.requiresReview)
    || (r.highImpact && r.unresolvedUncertainty)
    || (exists c :: c in r.conflicts && !c.resolved)
  }

  lemma {:induction false} CollectMembers<T>(items: seq<T>, of: T -> seq<Finding>, f: Finding)
    ensures f in Collect(items, of) <==> exists x :: x in items && f in of(x)
  {
    if items != [] {
      var init, last := items[..|items| - 1], items[|items| - 1];
      CollectMembers(init, of, f);
      assert items == init + [last];
    }
  }

  lemma FoundMembers(r: Request, f: Finding)
    ensures f in Found(r) <==>
            || (exists e :: e in r.evidence && f in OfEvidence(e))
            || (r.mandatoryMissing
                && f == Finding(MandatoryEvidenceMissing, if r.highImpact then BlockSeverity else ReviewSeverity, None))
            || (exists c :: c in r.constraints && f in OfConstraint(c))
            || (exists p :: p in r.policies && f in OfPolicy(p))
            || f in OfRequest(r)
            || (exists c :: c in r.conflicts && f in OfConflict(c))
  {
    CollectMembers(r.evidence, OfEvidence, f);
    CollectMembers(r.constraints, OfConstraint, f);
    CollectMembers(r.policies, OfPolicy, f);
    CollectMembers(r.conflicts, OfConflict, f);
    hide OfEvidence, OfConstraint, OfPolicy, OfRequest, OfConflict;
  }

  /** What the entry says, or what its status says when the entry leaves it out. */
  predicate Says(given: Option<bool>, fallback: bool) {
    given == Some(true) || (given == None && fallback)
  }

  /** The reason code and severity this entry gives a finding for, with the entry's id. */
  predicate GroundedInEvidence(e: Evidence, f: Finding) {
    && f.subject == e.id
    && match f.code
       case EvidenceUnverifiable =>
         f.severity == ReviewSeverity && !Says(e.verifiable, e.status != UnverifiedEvidence)
       case CitationFabricated => f.severity == BlockSeverity && e.fabricated
       case EvidenceOutdated => f.severity == ReviewSeverity && Says(e.outdated, e.status == OutdatedEvidence)
       case SourceClaimMismatch => f.severity == ReviewSeverity && !e.supportsClaim
       case EvidenceConflict =>
         f.severity == ReviewSeverity && Says(e.contradictsClaim, e.status == ConflictingEvidence)
       case MandatoryEvidenceMissing => f.severity == ReviewSeverity && e.status == Unavailable
       case _ => false
  }

  predicate GroundedInConstraint(c: Constraint, f: Finding) {
    && f.subject == c.id && !c.satisfied
    && if Says(c.hard, c.grade == Mandatory) then f.code == HardConstraintViolation && f.severity == BlockSeverity
       else
         && c.grade == ReviewRequired && f.severity == ReviewSeverity
         && match c.reason
            case Some(code) => f.code == Named(code)
            case None => f.code == ConstraintRequiresReview
  }

  predicate GroundedInConflict(c: Conflict, f: Finding) {
    && f.subject == c.id && !c.resolved
    && if c.critical then f.code == CriticalConflictUnresolved && f.severity == BlockSeverity
       else f.code == ConflictUnresolved && f.severity == ReviewSeverity
  }

  /** The finding follows from the request as a whole. */
  predicate GroundedInWhole(r: Request, f: Finding) {
    match f.code
    case MandatoryEvidenceMissing =>
      r.mandatoryMissing && f.subject == None && (f.severity == BlockSeverity <==> r.highImpact)
    case SeparationOfDuties =>
      r.generator.Some? && r.approver == r.generator && f.subject == r.generator && f.severity == BlockSeverity
    case HighImpactUncertainty =>
      r.highImpact && r.unresolvedUncertainty && f.subject == None && f.severity == ReviewSeverity
    case _ => false
  }

  lemma InWhen(b: bool, code: Code, severity: Severity, subject: Option<Id>, f: Finding)
    ensures f in When(b, code, severity, subject) <==> b && f == Finding(code, severity, subject)
  {
  }

  lemma EvidenceFinding(e: Evidence, f: Finding)
    ensures f in OfEvidence(e) <==> GroundedInEvidence(e, f)
  {
    InWhen(!Flag(e.verifiable, e.status != UnverifiedEvidence), EvidenceUnverifiable, ReviewSeverity, e.id, f);
    InWhen(e.fabricated, CitationFabricated, BlockSeverity, e.id, f);
    InWhen(Flag(e.outdated, e.status == OutdatedEvidence), EvidenceOutdated, ReviewSeverity, e.id, f);
    InWhen(!e.supportsClaim, SourceClaimMismatch, ReviewSeverity, e.id, f);
    InWhen(Flag(e.contradictsClaim, e.status == ConflictingEvidence), EvidenceConflict, ReviewSeverity, e.id, f);
    InWhen(e.status == Unavailable, MandatoryEvidenceMissing, ReviewSeverity, e.id, f);
    hide When;
  }

  lemma ConstraintFinding(c: Constraint, f: Finding)
    ensures f in OfConstraint(c) <==> GroundedInConstraint(c, f)
  {
  }

  lemma OtherFindings(r: Request, f: Finding)
    ensures forall p: Policy ::
              f in OfPolicy(p) <==> p.requiresReview && f == Finding(PolicyRequiresReview, ReviewSeverity, p.id)
    ensures forall c: Conflict :: f in OfConflict(c) <==> GroundedInConflict(c, f)
    ensures GroundedInWhole(r, f) <==>
            || f in OfRequest(r)
            || (r.mandatoryMissing
                && f == Finding(MandatoryEvidenceMissing, if r.highImpact then BlockSeverity else ReviewSeverity, None))
  {
  }

  /** Exactly these findings: each code with the severity and the subject its ground in the request gives it. */
  lemma FindingsExactly(r: Request, f: Finding)
    ensures f in Found(r) <==>
            || (exists e :: e in r.evidence && GroundedInEvidence(e, f))
            || (exists c :: c in r.constraints && GroundedInConstraint(c, f))
            || (exists p :: p in r.policies
                 && p.requiresReview && f == Finding(PolicyRequiresReview, ReviewSeverity, p.id))
            || (exists c :: c in r.conflicts && GroundedInConflict(c, f))
            || GroundedInWhole(r, f)
  {
    FoundMembers(r, f);
    OtherFindings(r, f);
    hide Found, OfEvidence, OfConstraint, OfPolicy, OfConflict, OfRequest;
    hide GroundedInEvidence, GroundedInConstraint, GroundedInConflict, GroundedInWhole;
    forall e ensures f in OfEvidence(e) <==> GroundedInEvidence(e, f) {
      EvidenceFinding(e, f);
    }
    forall c ensures f in OfConstraint(c) <==> GroundedInConstraint(c, f) {
      ConstraintFinding(c, f);
    }
  }

  lemma EvidenceFindings(e: Evidence)
    ensures (exists f :: f in OfEvidence(e) && f.severity == BlockSeverity) <==> e.fabricated
    ensures OfEvidence(e) != [] <==> e.fabricated || Doubtful(e)
  {
    if e.fabricated {
      assert Finding(CitationFabricated, BlockSeverity, e.id) in OfEvidence(e);
    }
  }

  /** A blocking finding is found exactly when something is forbidden. */
  lemma BlockIffForbidden(r: Request)
    ensures HasBlock(Found(r)) <==> Forbidden(r)
  {
    if HasBlock(Found(r)) {
      var i :| 0 <= i < |Found(r)| && Found(r)[i].severity == BlockSeverity;
      FoundMembers(r, Found(r)[i]);
      hide Found;
      forall e | e in r.evidence
        ensures (exists f :: f in OfEvidence(e) && f.severity == BlockSeverity) <==> e.fabricated
      {
        EvidenceFindings(e);
      }
    }
    if Forbidden(r) {
      hide Found;
      ForbiddenIsFound(r);
    }
  }

  lemma BlockMember(r: Request, f: Finding)
    requires f in Found(r) && f.severity == BlockSeverity
    ensures HasBlock(Found(r))
  {
  }

  lemma ForbiddenIsFound(r: Request)
    requires Forbidden(r)
    ensures HasBlock(Found(r))
  {
    hide HasBlock, Found;
    if e :| e in r.evidence && e.fabricated {
      EvidenceFindings(e);
      var f :| f in OfEvidence(e) && f.severity == BlockSeverity;
      FoundMembers(r, f);
      BlockMember(r, f);
    } else if c :| c in r.constraints && Hard(c) && !c.satisfied {
      var f := Finding(HardConstraintViolation, BlockSeverity, c.id);
      assert f in OfConstraint(c);
      FoundMembers(r, f);
      BlockMember(r, f);
    } else if c :| c in r.conflicts && !c.resolved && c.critical {
      var f := Finding(CriticalConflictUnresolved, BlockSeverity, c.id);
      assert f in OfConflict(c);
      FoundMembers(r, f);
      BlockMember(r, f);
    } else if r.mandatoryMissing && r.highImpact {
      var f := Finding(MandatoryEvidenceMissing, BlockSeverity, None);
      FoundMembers(r, f);
      BlockMember(r, f);
    } else {
      var f := Finding(SeparationOfDuties, BlockSeverity, r.generator);
      assert f in OfRequest(r);
      FoundMembers(r, f);
      BlockMember(r, f);
    }
  }

  /** Anything at all is found exactly when something is forbidden or questionable. */
  lemma FoundIffConcern(r: Request)
    ensures Found(r) != [] <==> Forbidden(r) || Questionable(r)
  {
    if Found(r) != [] {
      FoundMembers(r, Found(r)[0]);
      assert Found(r)[0] in Found(r);
      hide Found;
      forall e | e in r.evidence ensures OfEvidence(e) != [] <==> e.fabricated || Doubtful(e) {
        EvidenceFindings(e);
      }
    }
    if Forbidden(r) {
      BlockIffForbidden(r);
    } else if Questionable(r) {
      QuestionableIsFound(r);
    }
  }

  lemma QuestionableIsFound(r: Request)
    requires Questionable(r)
    ensures Found(r) != []
  {
    hide Found;
    if e :| e in r.evidence && Doubtful(e) {
      EvidenceFindings(e);
      FoundMembers(r, OfEvidence(e)[0]);
    } else if c :| c in r.constraints && c.grade == ReviewRequired && !c.satisfied {
      FoundMembers(r, OfConstraint(c)[0]);
    } else if p :| p in r.policies && p.requiresReview {
      FoundMembers(r, OfPolicy(p)[0]);
    } else if c :| c in r.conflicts && !c.resolved {
      FoundMembers(r, OfConflict(c)[0]);
    } else if r.mandatoryMissing {
      FoundMembers(r, Finding(MandatoryEvidenceMissing, if r.highImpact then BlockSeverity else ReviewSeverity, None));
    } else {
      FoundMembers(r, OfRequest(r)[|OfRequest(r)| - 1]);
    }
  }

  /** The engine's verdict, read off the request alone. */
  lemma VerdictExactly(r: Request)
    ensures Govern(Found(r)) == if Forbidden(r) then Block else if Questionable(r) then Review else Pass
  {
    BlockIffForbidden(r);
    FoundIffConcern(r);
  }

  // ---------------------------------------------------------------- assessing

  datatype Assessment = Assessment(outcome: Outcome, reasons: seq<Code>, humanReview: bool, findings: seq<Finding>)

  function Codes(found: seq<Finding>): (codes: seq<Code>)
    ensures forall i, j :: 0 <= i < j < |codes| ==> codes[i] != codes[j]
    ensures forall i :: 0 <= i < |found| ==> found[i].code in codes
    ensures forall c :: c in codes ==> exists i :: 0 <= i < |found| && found[i].code == c
  {
    if found == [] then []
    else
      var before, last := Codes(found[..|found| - 1]), found[|found| - 1].code;
      if last in before then before else before + [last]
  }

  function AssessOn(r: Request): Assessment {
    var found := Found(r);
    Assessment(Govern(found), if found == [] then [AllRequiredChecksSatisfied] else Codes(found),
      Govern(found) == Review, found)
  }

  method Assess(r: Request) returns (a: Assessment)
    ensures a == AssessOn(r)
    ensures a.outcome == Block <==> Forbidden(r)
    ensures a.outcome == Pass <==> !Forbidden(r) && !Questionable(r)
    ensures a.humanReview <==> a.outcome == Review
  {
    var found := Validate(r);
    VerdictExactly(r);
    var outcome := Govern(found);
    a := Assessment(outcome, if found == [] then [AllRequiredChecksSatisfied] else Codes(found), outcome == Review,
      found);
  }
}
