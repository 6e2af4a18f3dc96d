/** Verifying the facts taken from a quote against the trusted policy, and deciding whether the intake is ready. */
module IntakeVerification {
  import opened Wrappers

  type Id = int

  datatype FactType =
    | Amount | DiscountPercent | DiscountLimitPercent | MarginPercent | MinMarginPercent | PaymentTermDays
    | DurationMonths | CalendarDate | EvidenceDate | PolicyClaim | ExceptionClaim | ApprovalClaim | SelfApprovalClaim
    | RoleClaim | UntrustedInstruction

  datatype VerificationStatus = Unresolved | Verified | HumanConfirmed | Rejected

  /**
   What the verifier reads in a normalized value: whether it is the empty string, the number or the day it spells,
   and the policy ids it contains, exactly and up to case.
   */
  datatype Value = Value(empty: bool, number: Option<real>, day: Option<int>, mentions: set<Id>,
    mentionsAnyCase: set<Id>)

  /** `namesRoles`: the raw text has one of the words an instruction may not use. */
  datatype Candidate = Candidate(
    id: Id, kind: FactType, value: Option<Value>, namesRoles: bool, start: int, end: int,
    status: VerificationStatus, confirmationRequired: bool, confirmedBy: Option<Id>, confirmedByApprover: bool)

  datatype PolicyContext = PolicyContext(
    id: Id, version: Id, effectiveDay: int, maximumDiscount: real, minimumMargin: real, maximumMonths: int,
    approvalFrom: real, maximumEvidenceAge: int, requiredApprovals: int)

  datatype ResultCode =
    | PolicyReferenceNotRegistered | PolicyNotEffective | DiscountAboveLimit | MarginBelowMinimum | EvidenceOutdated
    | DurationExceptionRequired | RequiredApprovalMissing | SeparationOfDutiesViolation | GovernanceOverrideAttempt

  /** A finding's id is its number within the intake. */
  datatype Finding = Finding(number: nat, code: ResultCode, facts: seq<Id>)

  datatype ReasonCode =
    | TrustedPolicyUnavailable | ConflictsUnresolved | MandatoryInformationMissing | RequiredFactMissing(kind: FactType)
    | HumanConfirmationRequired | ReverificationRequired

  /** A requirement the extraction found no answer to. */
  datatype Requirement = Requirement(kind: FactType, number: nat)

  datatype Report = Report(
    candidates: seq<Candidate>, findings: seq<Finding>, unresolved: seq<Requirement>, ready: bool,
    reasons: seq<ReasonCode>)

  /** A value that is not the number or date its fact needs. */
  datatype VerifyError = MalformedValue

  // ---------------------------------------------------------------- the passes over the candidates

  const OBJECTIVE: set<FactType> := {
    Amount, DiscountPercent, MarginPercent, PaymentTermDays, DurationMonths, CalendarDate, EvidenceDate}

  function VerifyCandidate(c: Candidate): Candidate {
    if c.status == HumanConfirmed || c.status == Rejected then c
    else if c.kind in OBJECTIVE && c.value.Some? then c.(status := Verified, confirmationRequired := false)
    else if c.kind == UntrustedInstruction then c.(status := Rejected)
    else c
  }

  predicate Overlaps(instruction: Candidate, c: Candidate) {
    instruction.start < c.end && c.start < instruction.end
  }

  predicate Embedded(cs: seq<Candidate>, c: Candidate) {
    c.kind in {PolicyClaim, ApprovalClaim, RoleClaim} &&
    exists k :: 0 <= k < |cs| && cs[k].kind == UntrustedInstruction && Overlaps(cs[k], c)
  }

  predicate Misnamed(c: Candidate, policy: Option<PolicyContext>) {
    policy.Some? && c.kind == PolicyClaim && (c.value.None? || policy.value.id !in c.value.value.mentionsAnyCase)
  }

  function RejectEmbedded(cs: seq<Candidate>, c: Candidate): Candidate {
    if Embedded(cs, c) then c.(status := Rejected, confirmationRequired := false) else c
  }

  function CheckPolicyReference(c: Candidate, policy: Option<PolicyContext>): Candidate {
    if Misnamed(c, policy) then c.(status := Rejected, confirmationRequired := false) else c
  }

  /** The three passes, one after the other; each keeps every candidate's place. */
  function VerifyCandidates(cs: seq<Candidate>, policy: Option<PolicyContext>): (r: seq<Candidate>)
    ensures |r| == |cs|
  {
    var checked := seq(|cs|, i requires 0 <= i < |cs| => VerifyCandidate(cs[i]));
    var unembedded := seq(|cs|, i requires 0 <= i < |cs| => RejectEmbedded(checked, checked[i]));
    seq(|cs|, i requires 0 <= i < |cs| => CheckPolicyReference(unembedded[i], policy))
  }

  /**
   A policy, approval or role claim inside an untrusted instruction is rejected by every verification, even after a
   person confirmed it, so it never counts as an approval; and so is a policy claim that does not name the policy.
   What nobody decided and no rule rejects is trusted exactly if it is an objective fact with a value.
   */
  lemma VerificationDecides(cs: seq<Candidate>, policy: Option<PolicyContext>, i: nat)
    requires i < |cs|
    ensures var c, r := cs[i], VerifyCandidates(cs, policy)[i];
      && r.kind == c.kind && r.id == c.id && r.value == c.value
      && (Embedded(cs, c) || Misnamed(c, policy) ==> r.status == Rejected && !ConfirmedApproval(r))
      && (!Embedded(cs, c) && !Misnamed(c, policy) && (c.status == HumanConfirmed || c.status == Rejected) ==> r == c)
      && (!Embedded(cs, c) && !Misnamed(c, policy) && c.status == Unresolved ==>
            (Trusted(r) <==> c.kind in OBJECTIVE && c.value.Some?))
  {
    var checked := seq(|cs|, j requires 0 <= j < |cs| => VerifyCandidate(cs[j]));
    EmbeddedAlike(cs, checked, i);
    assert VerifyCandidates(cs, policy)[i] == CheckPolicyReference(RejectEmbedded(checked, checked[i]), policy);
    hide VerifyCandidates, Embedded;
  }

  /** Checking the candidates one by one moves none of them. */
  lemma EmbeddedAlike(cs: seq<Candidate>, checked: seq<Candidate>, i: nat)
    requires |checked| == |cs| && i < |cs| && forall j :: 0 <= j < |cs| ==> checked[j] == VerifyCandidate(cs[j])
    ensures Embedded(checked, checked[i]) <==> Embedded(cs, cs[i])
  {
    forall j | 0 <= j < |cs|
      ensures checked[j].kind == cs[j].kind && checked[j].start == cs[j].start && checked[j].end == cs[j].end
    {
    }
    hide VerifyCandidate;
    if Embedded(cs, cs[i]) {
      var k :| 0 <= k < |cs| && cs[k].kind == UntrustedInstruction && Overlaps(cs[k], cs[i]);
      assert checked[k].kind == UntrustedInstruction && Overlaps(checked[k], checked[i]);
    }
    if Embedded(checked, checked[i]) {
      var k :| 0 <= k < |cs| && checked[k].kind == UntrustedInstruction && Overlaps(checked[k], checked[i]);
      assert cs[k].kind == UntrustedInstruction && Overlaps(cs[k], cs[i]);
    }
  }

  // ---------------------------------------------------------------- the policy rules

  function First(cs: seq<Candidate>, kind: FactType): Option<Candidate> {
    if cs == [] then None else if cs[0].kind == kind then Some(cs[0]) else First(cs[1..], kind)
  }

  predicate Present(c: Option<Candidate>) { c.Some? && c.value.value.Some? }

  predicate PresentText(c: Option<Candidate>) { Present(c) && !c.value.value.value.empty }

  predicate Numeric(c: Candidate) { c.value.Some? && c.value.value.number.Some? }

  function Number(c: Candidate): real
    requires Numeric(c)
  {
    c.value.value.number.value
  }

  /** Truncation towards zero. */
  function Whole(x: real): int {
    if x >= 0.0 then x.Floor else -((-x).Floor)
  }

  /** Some rule needs a number or a day and the text spells none; the source raises. */
  predicate Malformed(cs: seq<Candidate>) {
    var discount, margin, duration, amount, evidence :=
      First(cs, DiscountPercent), First(cs, MarginPercent), First(cs, DurationMonths), First(cs, Amount),
      First(cs, EvidenceDate);
    || (Present(discount) && !Numeric(discount.value))
    || (Present(margin) && !Numeric(margin.value))
    || (PresentText(evidence) && evidence.value.value.value.day.None?)
    || (PresentText(duration) && !Numeric(duration.value))
    || (PresentText(amount) && !Numeric(amount.value))
  }

  predicate ConfirmedApproval(c: Candidate) {
    c.kind == ApprovalClaim && c.status == HumanConfirmed && c.confirmedByApprover
  }

  function Approvers(cs: seq<Candidate>): set<Id> {
    set i | 0 <= i < |cs| && ConfirmedApproval(cs[i]) && cs[i].confirmedBy.Some? :: cs[i].confirmedBy.value
  }

  predicate ConfirmedException(c: Candidate, policy: PolicyContext) {
    && c.kind in {PolicyClaim, ExceptionClaim} && c.status == HumanConfirmed
    && c.value.Some? && policy.id in c.value.value.mentions
  }

  predicate TooLong(cs: seq<Candidate>, policy: PolicyContext)
    requires !Malformed(cs)
  {
    PresentText(First(cs, DurationMonths)) && Whole(Number(First(cs, DurationMonths).value)) > policy.maximumMonths
  }

  predicate NeedsApproval(cs: seq<Candidate>, policy: PolicyContext)
    requires !Malformed(cs)
  {
    PresentText(First(cs, Amount)) && Number(First(cs, Amount).value) >= policy.approvalFrom
  }

  predicate Breached(cs: seq<Candidate>, policy: PolicyContext, today: int, code: ResultCode)
    requires !Malformed(cs)
  {
    match code
    case PolicyReferenceNotRegistered => exists c :: c in cs && c.kind == PolicyClaim && c.status == Rejected
    case PolicyNotEffective => policy.effectiveDay > today
    case DiscountAboveLimit =>
      Present(First(cs, DiscountPercent)) && Number(First(cs, DiscountPercent).value) > policy.maximumDiscount
    case MarginBelowMinimum =>
      Present(First(cs, MarginPercent)) && Number(First(cs, MarginPercent).value) < policy.minimumMargin
    case EvidenceOutdated =>
      && PresentText(First(cs, EvidenceDate))
      && today - First(cs, EvidenceDate).value.value.value.day.value > policy.maximumEvidenceAge
    case DurationExceptionRequired => TooLong(cs, policy) && !exists c :: c in cs && ConfirmedException(c, policy)
    case RequiredApprovalMissing => NeedsApproval(cs, policy) && |Approvers(cs)| < policy.requiredApprovals
    case SeparationOfDutiesViolation => exists c :: c in cs && c.kind == SelfApprovalClaim && c.status == HumanConfirmed
    case GovernanceOverrideAttempt =>
      First(cs, UntrustedInstruction).Some? && First(cs, UntrustedInstruction).value.namesRoles
  }

  /** The order the rules are tried in. */
  const RULES: seq<ResultCode> := [
    PolicyReferenceNotRegistered, PolicyNotEffective, DiscountAboveLimit, MarginBelowMinimum, EvidenceOutdated,
    DurationExceptionRequired, RequiredApprovalMissing, SeparationOfDutiesViolation, GovernanceOverrideAttempt]

  function FirstWith(cs: seq<Candidate>, kind: FactType, status: VerificationStatus): seq<Id> {
    if cs == [] then []
    else if cs[0].kind == kind && cs[0].status == status then [cs[0].id]
    else FirstWith(cs[1..], kind, status)
  }

  function IdOf(c: Option<Candidate>): seq<Id> {
    if c.Some? then [c.value.id] else []
  }

  function ApprovalIds(cs: seq<Candidate>): seq<Id> {
    if cs == [] then []
    else ApprovalIds(cs[..|cs| - 1]) + if ConfirmedApproval(cs[|cs| - 1]) then [cs[|cs| - 1].id] else []
  }

  /** The facts a finding rests on. */
  function FactsFor(cs: seq<Candidate>, code: ResultCode): seq<Id> {
    match code
    case PolicyReferenceNotRegistered => FirstWith(cs, PolicyClaim, Rejected)
    case PolicyNotEffective => []
    case DiscountAboveLimit => IdOf(First(cs, DiscountPercent))
    case MarginBelowMinimum => IdOf(First(cs, MarginPercent))
    case EvidenceOutdated => IdOf(First(cs, EvidenceDate))
    case DurationExceptionRequired => IdOf(First(cs, DurationMonths))
    case RequiredApprovalMissing => IdOf(First(cs, Amount)) + ApprovalIds(cs)
    case SeparationOfDutiesViolation => FirstWith(cs, SelfApprovalClaim, HumanConfirmed)
    case GovernanceOverrideAttempt => IdOf(First(cs, UntrustedInstruction))
  }

  /** The findings of the first n rules. */
  function FindingsUpTo(cs: seq<Candidate>, policy: PolicyContext, today: int, n: nat): seq<Finding>
    requires n <= |RULES| && !Malformed(cs)
  {
    if n == 0 then []
    else
      var before := FindingsUpTo(cs, policy, today, n - 1);
      before + if Breached(cs, policy, today, RULES[n - 1])
               then [Finding(|before| + 1, RULES[n - 1], FactsFor(cs, RULES[n - 1]))]
               else []
  }

  function Findings(cs: seq<Candidate>, policy: PolicyContext, today: int): seq<Finding>
    requires !Malformed(cs)
  {
    FindingsUpTo(cs, policy, today, |RULES|)
  }

  predicate HasCode(findings: seq<Finding>, code: ResultCode) {
    exists i :: 0 <= i < |findings| && findings[i].code == code
  }

  function Place(code: ResultCode): nat {
    match code
    case PolicyReferenceNotRegistered => 0
    case PolicyNotEffective => 1
    case DiscountAboveLimit => 2
    case MarginBelowMinimum => 3
    case EvidenceOutdated => 4
    case DurationExceptionRequired => 5
    case RequiredApprovalMissing => 6
    case SeparationOfDutiesViolation => 7
    case GovernanceOverrideAttempt => 8
  }

  lemma RuleAtPlace(k: nat, code: ResultCode)
    requires k < |RULES|
    ensures Place(code) < |RULES| && (RULES[k] == code <==> k == Place(code))
  {
    assert RULES[0] == PolicyReferenceNotRegistered && RULES[1] == PolicyNotEffective && RULES[2] == DiscountAboveLimit;
    assert RULES[3] == MarginBelowMinimum && RULES[4] == EvidenceOutdated && RULES[5] == DurationExceptionRequired;
    assert RULES[6] == RequiredApprovalMissing && RULES[7] == SeparationOfDutiesViolation
      && RULES[8] == GovernanceOverrideAttempt;
  }

  lemma HasCodeAppend(findings: seq<Finding>, f: Finding, code: ResultCode)
    ensures HasCode(findings + [f], code) <==> HasCode(findings, code) || f.code == code
  {
    var all := findings + [f];
    assert all[|findings|] == f;
    if HasCode(findings, code) {
      var i :| 0 <= i < |findings| && findings[i].code == code;
      assert all[i].code == code;
    }
  }

  lemma {:induction false} CodesExactly(cs: seq<Candidate>, policy: PolicyContext, today: int, n: nat, code: ResultCode)
    requires n <= |RULES| && !Malformed(cs)
    ensures HasCode(FindingsUpTo(cs, policy, today, n), code) <==> Place(code) < n && Breached(cs, policy, today, code)
  {
    hide Breached, Malformed, FactsFor, HasCode, Place;
    if n > 0 {
      CodesExactly(cs, policy, today, n - 1, code);
      RuleAtPlace(n - 1, code);
      var before := FindingsUpTo(cs, policy, today, n - 1);
      HasCodeAppend(before, Finding(|before| + 1, RULES[n - 1], FactsFor(cs, RULES[n - 1])), code);
      assert before + [] == before;
    } else {
      assert !HasCode([], code) by { NoCodes(code); }
    }
  }

  lemma NoCodes(code: ResultCode)
    ensures !HasCode([], code)
  {
  }

  /** A rule has a finding if and only if it is breached. */
  lemma FindingIffBreached(cs: seq<Candidate>, policy: PolicyContext, today: int, code: ResultCode)
    requires !Malformed(cs)
    ensures HasCode(Findings(cs, policy, today), code) <==> Breached(cs, policy, today, code)
  {
    CodesExactly(cs, policy, today, |RULES|, code);
    RuleAtPlace(0, code);
  }

  /** Findings are numbered from 1 and come in rule order, so each rule has at most one. */
  lemma {:induction false} FindingsInOrder(cs: seq<Candidate>, policy: PolicyContext, today: int, n: nat)
    requires n <= |RULES| && !Malformed(cs)
    ensures var found := FindingsUpTo(cs, policy, today, n);
      && (forall i :: 0 <= i < |found| ==> found[i].number == i + 1 && Place(found[i].code) < n)
      && (forall i, j :: 0 <= i < j < |found| ==> Place(found[i].code) < Place(found[j].code))
  {
    hide Breached, Malformed, FactsFor, Place;
    if n > 0 {
      FindingsInOrder(cs, policy, today, n - 1);
      RuleAtPlace(n - 1, RULES[n - 1]);
      assert FindingsUpTo(cs, policy, today, n - 1) + [] == FindingsUpTo(cs, policy, today, n - 1);
    }
  }

  predicate IsOf(c: Candidate, kind: FactType, status: Option<VerificationStatus>) {
    c.kind == kind && (status.Some? ==> c.status == status.value)
  }

  /** The id of the first fact of this kind and, if one is given, this status. */
  predicate NamesFirst(cs: seq<Candidate>, kind: FactType, status: Option<VerificationStatus>, facts: seq<Id>) {
    exists i :: 0 <= i < |cs| && IsOf(cs[i], kind, status) && facts == [cs[i].id]
                && forall j :: 0 <= j < i ==> !IsOf(cs[j], kind, status)
  }

  /** The ids at these places, which are those of the approvals a person with the right to approve confirmed. */
  ghost predicate NamesApprovals(cs: seq<Candidate>, facts: seq<Id>, places: seq<nat>) {
    && |places| == |facts|
    && (forall m, n :: 0 <= m < n < |places| ==> places[m] < places[n])
    && (forall i: nat :: i in places <==> i < |cs| && ConfirmedApproval(cs[i]))
    && (forall m :: 0 <= m < |facts| ==> places[m] < |cs| && facts[m] == cs[places[m]].id)
  }

  /** The facts a finding of each rule names. */
  ghost predicate NamesFacts(cs: seq<Candidate>, code: ResultCode, facts: seq<Id>) {
    match code
    case PolicyReferenceNotRegistered => NamesFirst(cs, PolicyClaim, Some(Rejected), facts)
    case PolicyNotEffective => facts == []
    case DiscountAboveLimit => NamesFirst(cs, DiscountPercent, None, facts)
    case MarginBelowMinimum => NamesFirst(cs, MarginPercent, None, facts)
    case EvidenceOutdated => NamesFirst(cs, EvidenceDate, None, facts)
    case DurationExceptionRequired => NamesFirst(cs, DurationMonths, None, facts)
    case RequiredApprovalMissing =>
      facts != [] && NamesFirst(cs, Amount, None, facts[..1]) && exists places :: NamesApprovals(cs, facts[1..], places)
    case SeparationOfDutiesViolation => NamesFirst(cs, SelfApprovalClaim, Some(HumanConfirmed), facts)
    case GovernanceOverrideAttempt => NamesFirst(cs, UntrustedInstruction, None, facts)
  }

  lemma {:induction false} FirstIsNamed(cs: seq<Candidate>, kind: FactType)
    requires First(cs, kind).Some?
    ensures NamesFirst(cs, kind, None, [First(cs, kind).value.id])
  {
    if cs[0].kind != kind {
      FirstIsNamed(cs[1..], kind);
      NamedLater(cs, kind, None, [First(cs, kind).value.id]);
    }
  }

  lemma {:induction false} FirstWithIsNamed(cs: seq<Candidate>, kind: FactType, status: VerificationStatus)
    requires exists c :: c in cs && c.kind == kind && c.status == status
    ensures NamesFirst(cs, kind, Some(status), FirstWith(cs, kind, status))
  {
    if !(cs[0].kind == kind && cs[0].status == status) {
      FirstWithIsNamed(cs[1..], kind, status);
      NamedLater(cs, kind, Some(status), FirstWith(cs, kind, status));
    }
  }

  lemma NamedLater(cs: seq<Candidate>, kind: FactType, status: Option<VerificationStatus>, facts: seq<Id>)
    requires cs != [] && !IsOf(cs[0], kind, status) && NamesFirst(cs[1..], kind, status, facts)
    ensures NamesFirst(cs, kind, status, facts)
  {
    var rest := cs[1..];
    var i :| 0 <= i < |rest| && IsOf(rest[i], kind, status) && facts == [rest[i].id]
             && forall j :: 0 <= j < i ==> !IsOf(rest[j], kind, status);
    assert cs[i + 1] == rest[i];
    forall j | 0 <= j < i + 1 ensures !IsOf(cs[j], kind, status) {
      if j > 0 {
        assert cs[j] == rest[j - 1];
      }
    }
  }

  lemma NamesApprovalsNext(init: seq<Candidate>, last: Candidate, facts: seq<Id>, places: seq<nat>)
    requires NamesApprovals(init, facts, places)
    ensures if ConfirmedApproval(last) then NamesApprovals(init + [last], facts + [last.id], places + [|init|])
            else NamesApprovals(init + [last], facts, places)
  {
    var cs := init + [last];
    assert forall i :: 0 <= i < |init| ==> init[i] == cs[i];
    assert forall m :: 0 <= m < |places| ==> places[m] in places;
    hide ConfirmedApproval;
    if ConfirmedApproval(last) {
      assert forall i: nat :: i in places + [|init|] <==> i in places || i == |init|;
    }
  }

  lemma {:induction false} ApprovalsAreNamed(cs: seq<Candidate>) returns (places: seq<nat>)
    ensures NamesApprovals(cs, ApprovalIds(cs), places)
  {
    if cs == [] {
      places := [];
    } else {
      var init, last := cs[..|cs| - 1], cs[|cs| - 1];
      places := ApprovalsAreNamed(init);
      assert cs == init + [last] && ApprovalIds(init) + [] == ApprovalIds(init);
      hide ConfirmedApproval, NamesApprovals;
      NamesApprovalsNext(init, last, ApprovalIds(init), places);
      if ConfirmedApproval(last) {
        places := places + [|init|];
      }
    }
  }

  lemma BreachNamesFacts(cs: seq<Candidate>, policy: PolicyContext, today: int, code: ResultCode)
    requires !Malformed(cs) && Breached(cs, policy, today, code)
    ensures NamesFacts(cs, code, FactsFor(cs, code))
  {
    hide First, FirstWith, NamesFirst, Malformed, ApprovalIds, NamesApprovals;
    match code
    case PolicyReferenceNotRegistered => FirstWithIsNamed(cs, PolicyClaim, Rejected);
    case PolicyNotEffective =>
    case DiscountAboveLimit => FirstIsNamed(cs, DiscountPercent);
    case MarginBelowMinimum => FirstIsNamed(cs, MarginPercent);
    case EvidenceOutdated => FirstIsNamed(cs, EvidenceDate);
    case DurationExceptionRequired => FirstIsNamed(cs, DurationMonths);
    case RequiredApprovalMissing =>
      FirstIsNamed(cs, Amount);
      var places := ApprovalsAreNamed(cs);
      var facts := FactsFor(cs, code);
      assert facts[..1] == [First(cs, Amount).value.id] && facts[1..] == ApprovalIds(cs);
    case SeparationOfDutiesViolation => FirstWithIsNamed(cs, SelfApprovalClaim, HumanConfirmed);
    case GovernanceOverrideAttempt => FirstIsNamed(cs, UntrustedInstruction);
  }

  /** Every finding names its facts: the first of its kind, or the amount and the approvals that did count. */
  lemma {:induction false} FindingsNameFacts(cs: seq<Candidate>, policy: PolicyContext, today: int, n: nat)
    requires n <= |RULES| && !Malformed(cs)
    ensures forall f :: f in FindingsUpTo(cs, policy, today, n) ==> NamesFacts(cs, f.code, f.facts)
  {
    hide Malformed, Breached, NamesFacts, FactsFor;
    if n > 0 {
      FindingsNameFacts(cs, policy, today, n - 1);
      if Breached(cs, policy, today, RULES[n - 1]) {
        BreachNamesFacts(cs, policy, today, RULES[n - 1]);
      }
    }
  }

  lemma NextRule(cs: seq<Candidate>, policy: PolicyContext, today: int, n: nat, code: ResultCode)
    requires n < |RULES| && !Malformed(cs) && n == Place(code)
    ensures var before := FindingsUpTo(cs, policy, today, n);
      FindingsUpTo(cs, policy, today, n + 1) ==
      if Breached(cs, policy, today, code) then before + [Finding(|before| + 1, code, FactsFor(cs, code))] else before
  {
    hide Breached, Malformed, FactsFor;
    RuleAtPlace(n, code);
    assert FindingsUpTo(cs, policy, today, n) + [] == FindingsUpTo(cs, policy, today, n);
  }

  method ComparePolicy(cs: seq<Candidate>, policy: PolicyContext, today: int)
    returns (r: Result<seq<Finding>, VerifyError>)
    ensures r.Failure? <==> Malformed(cs)
    ensures r.Success? ==> r.value == Findings(cs, policy, today)
  {
    if Malformed(cs) {
      return Failure(MalformedValue);
    }
    var findings := CompareConduct(cs, policy, today);
    return Success(findings);
  }

  /** The rules on self-approval and on instructions that claim roles. */
  method CompareConduct(cs: seq<Candidate>, policy: PolicyContext, today: int) returns (findings: seq<Finding>)
    requires !Malformed(cs)
    ensures findings == FindingsUpTo(cs, policy, today, 9)
  {
    hide Malformed, First, FirstWith, FindingsUpTo;
    findings := CompareTerms(cs, policy, today);
    var selfApproved := exists c :: c in cs && c.kind == SelfApprovalClaim && c.status == HumanConfirmed;
    var override := First(cs, UntrustedInstruction);
    var overriding := override.Some? && override.value.namesRoles;
    assert selfApproved == Breached(cs, policy, today, SeparationOfDutiesViolation);
    assert overriding == Breached(cs, policy, today, GovernanceOverrideAttempt);
    hide Breached;
    NextRule(cs, policy, today, 7, SeparationOfDutiesViolation);
    if selfApproved {
      findings := findings + [Finding(|findings| + 1, SeparationOfDutiesViolation,
        FirstWith(cs, SelfApprovalClaim, HumanConfirmed))];
    }
    NextRule(cs, policy, today, 8, GovernanceOverrideAttempt);
    if overriding {
      findings := findings + [Finding(|findings| + 1, GovernanceOverrideAttempt, [override.value.id])];
    }
  }

  /** The rules on the policy reference and its date. */
  method CompareReference(cs: seq<Candidate>, policy: PolicyContext, today: int) returns (findings: seq<Finding>)
    requires !Malformed(cs)
    ensures findings == FindingsUpTo(cs, policy, today, 2)
  {
    hide FindingsUpTo, FirstWith, Malformed;
    var unregistered := exists c :: c in cs && c.kind == PolicyClaim && c.status == Rejected;
    assert unregistered == Breached(cs, policy, today, PolicyReferenceNotRegistered);
    assert (policy.effectiveDay > today) == Breached(cs, policy, today, PolicyNotEffective);
    hide Breached;
    findings := [];
    NoFindings(cs, policy, today);
    NextRule(cs, policy, today, 0, PolicyReferenceNotRegistered);
    if unregistered {
      findings := findings + [
        Finding(|findings| + 1, PolicyReferenceNotRegistered, FirstWith(cs, PolicyClaim, Rejected))];
    }
    NextRule(cs, policy, today, 1, PolicyNotEffective);
    if policy.effectiveDay > today {
      findings := findings + [Finding(|findings| + 1, PolicyNotEffective, [])];
    }
  }

  /** The rules on the discount and the margin. */
  method ComparePrices(cs: seq<Candidate>, policy: PolicyContext, today: int) returns (findings: seq<Finding>)
    requires !Malformed(cs)
    ensures findings == FindingsUpTo(cs, policy, today, 4)
  {
    hide FindingsUpTo, First;
    findings := CompareReference(cs, policy, today);
    var discount, margin := First(cs, DiscountPercent), First(cs, MarginPercent);
    var tooCheap := Present(discount) && discount.value.value.value.number.value > policy.maximumDiscount;
    var tooThin := Present(margin) && margin.value.value.value.number.value < policy.minimumMargin;
    assert tooCheap == Breached(cs, policy, today, DiscountAboveLimit);
    assert tooThin == Breached(cs, policy, today, MarginBelowMinimum);
    hide Breached, Malformed;
    NextRule(cs, policy, today, 2, DiscountAboveLimit);
    if tooCheap {
      findings := findings + [Finding(|findings| + 1, DiscountAboveLimit, [discount.value.id])];
    }
    NextRule(cs, policy, today, 3, MarginBelowMinimum);
    if tooThin {
      findings := findings + [Finding(|findings| + 1, MarginBelowMinimum, [margin.value.id])];
    }
  }

  lemma NoFindings(cs: seq<Candidate>, policy: PolicyContext, today: int)
    requires !Malformed(cs)
    ensures FindingsUpTo(cs, policy, today, 0) == []
  {
  }

  /** The rules on age, duration and approvals. */
  method CompareTerms(cs: seq<Candidate>, policy: PolicyContext, today: int) returns (findings: seq<Finding>)
    requires !Malformed(cs)
    ensures findings == FindingsUpTo(cs, policy, today, 7)
  {
    hide FindingsUpTo, First, ConfirmedException, ApprovalIds, Whole;
    findings := ComparePrices(cs, policy, today);
    var evidenceDate, duration, amount := First(cs, EvidenceDate), First(cs, DurationMonths), First(cs, Amount);
    var stale := PresentText(evidenceDate)
      && today - evidenceDate.value.value.value.day.value > policy.maximumEvidenceAge;
    var excepted := exists c :: c in cs && ConfirmedException(c, policy);
    var tooLong := PresentText(duration) && Whole(duration.value.value.value.number.value) > policy.maximumMonths
      && !excepted;
    var approvers := Approvers(cs);
    var unapproved :=
      PresentText(amount) && amount.value.value.value.number.value >= policy.approvalFrom
        && |approvers| < policy.requiredApprovals;
    assert stale == Breached(cs, policy, today, EvidenceOutdated);
    assert tooLong == Breached(cs, policy, today, DurationExceptionRequired);
    assert unapproved == Breached(cs, policy, today, RequiredApprovalMissing);
    hide Breached, Malformed;
    NextRule(cs, policy, today, 4, EvidenceOutdated);
    if stale {
      findings := findings + [Finding(|findings| + 1, EvidenceOutdated, [evidenceDate.value.id])];
    }
    NextRule(cs, policy, today, 5, DurationExceptionRequired);
    if tooLong {
      findings := findings + [Finding(|findings| + 1, DurationExceptionRequired, [duration.value.id])];
    }
    NextRule(cs, policy, today, 6, RequiredApprovalMissing);
    if unapproved {
      findings := findings + [Finding(|findings| + 1, RequiredApprovalMissing, [amount.value.id] + ApprovalIds(cs))];
    }
  }

  // ---------------------------------------------------------------- readiness

  predicate Trusted(c: Candidate) { c.status == Verified || c.status == HumanConfirmed }

  predicate HasTrusted(cs: seq<Candidate>, kind: FactType) {
    exists i :: 0 <= i < |cs| && cs[i].kind == kind && Trusted(cs[i])
  }

  predicate AwaitsPerson(c: Candidate) {
    c.confirmationRequired && c.status == Unresolved
      && c.kind in {PolicyClaim, ExceptionClaim, ApprovalClaim, SelfApprovalClaim}
  }

  function ReasonIf(b: bool, reason: ReasonCode): seq<ReasonCode> {
    if b then [reason] else []
  }

  function Missing(cs: seq<Candidate>): seq<ReasonCode> {
    ReasonIf(!HasTrusted(cs, Amount), RequiredFactMissing(Amount))
    + ReasonIf(!HasTrusted(cs, DiscountPercent), RequiredFactMissing(DiscountPercent))
    + ReasonIf(!HasTrusted(cs, MarginPercent), RequiredFactMissing(MarginPercent))
  }

  function Reasons(cs: seq<Candidate>, policy: Option<PolicyContext>, unresolved: seq<Requirement>, conflicts: bool)
    : seq<ReasonCode>
  {
    ReasonIf(policy.None?, TrustedPolicyUnavailable)
    + ReasonIf(conflicts, ConflictsUnresolved)
    + ReasonIf(unresolved != [], MandatoryInformationMissing)
    + Missing(cs)
    + ReasonIf(exists c :: c in cs && AwaitsPerson(c), HumanConfirmationRequired)
  }

  function BuildReportOn(
    cs: seq<Candidate>, policy: Option<PolicyContext>, today: int, unresolved: seq<Requirement>, conflicts: bool)
    : Result<Report, VerifyError>
  {
    if policy.Some? && Malformed(cs) then Failure(MalformedValue)
    else
      var findings := if policy.Some? then Findings(cs, policy.value, today) else [];
      var reasons := Reasons(cs, policy, unresolved, conflicts);
      Success(Report(cs, findings, unresolved, reasons == [], reasons))
  }

  method BuildReport(
    cs: seq<Candidate>, policy: Option<PolicyContext>, today: int, unresolved: seq<Requirement>, conflicts: bool)
    returns (r: Result<Report, VerifyError>)
    ensures r == BuildReportOn(cs, policy, today, unresolved, conflicts)
  {
    hide HasTrusted, AwaitsPerson;
    var findings: seq<Finding> := [];
    var reasons: seq<ReasonCode> := [];
    if policy.None? {
      reasons := reasons + [TrustedPolicyUnavailable];
    } else {
      var compared := ComparePolicy(cs, policy.value, today);
      if compared.Failure? {
        return Failure(MalformedValue);
      }
      findings := compared.value;
    }
    hide Malformed, Findings;
    if conflicts {
      reasons := reasons + [ConflictsUnresolved];
    }
    if unresolved != [] {
      reasons := reasons + [MandatoryInformationMissing];
    }
    assert reasons == ReasonIf(policy.None?, TrustedPolicyUnavailable) + ReasonIf(conflicts, ConflictsUnresolved)
                      + ReasonIf(unresolved != [], MandatoryInformationMissing);
    var missing := MissingFacts(cs);
    reasons := reasons + missing;
    if exists c :: c in cs && AwaitsPerson(c) {
      reasons := reasons + [HumanConfirmationRequired];
    }
    assert reasons == Reasons(cs, policy, unresolved, conflicts);
    return Success(Report(cs, findings, unresolved, reasons == [], reasons));
  }

  method MissingFacts(cs: seq<Candidate>) returns (missing: seq<ReasonCode>)
    ensures missing == Missing(cs)
  {
    hide HasTrusted;
    missing := [];
    if !HasTrusted(cs, Amount) {
      missing := missing + [RequiredFactMissing(Amount)];
    }
    if !HasTrusted(cs, DiscountPercent) {
      missing := missing + [RequiredFactMissing(DiscountPercent)];
    }
    if !HasTrusted(cs, MarginPercent) {
      missing := missing + [RequiredFactMissing(MarginPercent)];
    }
  }

  /** A fresh report is ready exactly when nothing at all stands in the way. */
  lemma ReadyExactly(
    cs: seq<Candidate>, policy: Option<PolicyContext>, today: int, unresolved: seq<Requirement>, conflicts: bool)
    requires BuildReportOn(cs, policy, today, unresolved, conflicts).Success?
    ensures BuildReportOn(cs, policy, today, unresolved, conflicts).value.ready <==>
              && policy.Some? && !conflicts && unresolved == []
              && HasTrusted(cs, Amount) && HasTrusted(cs, DiscountPercent) && HasTrusted(cs, MarginPercent)
              && forall c :: c in cs ==> !AwaitsPerson(c)
  {
  }

  // ---------------------------------------------------------------- verify and reverify

  datatype Extraction = Extraction(candidates: seq<Candidate>, conflicts: bool, requirements: seq<Requirement>)

  function VerifyOn(policy: Option<PolicyContext>, today: int, e: Extraction): Result<Report, VerifyError> {
    BuildReportOn(VerifyCandidates(e.candidates, policy), policy, today, e.requirements, e.conflicts)
  }

  predicate ApprovalConfirmed(cs: seq<Candidate>) {
    exists i :: 0 <= i < |cs| && cs[i].kind == ApprovalClaim && cs[i].status == HumanConfirmed
  }

  function StillUnresolved(requirements: seq<Requirement>, approved: bool): seq<Requirement> {
    if requirements == [] then []
    else
      var last := requirements[|requirements| - 1];
      StillUnresolved(requirements[..|requirements| - 1], approved) + if approved && last.kind == ApprovalClaim then []
        else [last]
  }

  function ReverifyOn(policy: Option<PolicyContext>, today: int, r: Report): Result<Report, VerifyError> {
    var cs := VerifyCandidates(r.candidates, policy);
    var unresolved := StillUnresolved(r.unresolved, ApprovalConfirmed(cs));
    BuildReportOn(cs, policy, today, unresolved, ConflictsUnresolved in r.reasons)
  }
}
