/** Human confirmations of intake facts, and what holds over any sequence of confirmations and re-verifications. */
module IntakeRuns {
  import opened Wrappers
  import opened IntakeVerification

  // ---------------------------------------------------------------- one confirmation

  datatype Action = Confirm | Correct(value: Value) | CorrectNothing | Reject | UnknownAction

  datatype Actor = Actor(id: Id, human: bool, mayConfirm: bool, approver: bool)

  datatype ConfirmError =
    | HumanActorRequired | ConfirmationForbidden | InvalidAction | CorrectedValueRequired | ReasonRequired
    | FactNotFound

  predicate HasFact(cs: seq<Candidate>, fact: Id) {
    exists i :: 0 <= i < |cs| && cs[i].id == fact
  }

  function Current(cs: seq<Candidate>, fact: Id): (c: Candidate)
    requires HasFact(cs, fact)
    ensures c in cs && c.id == fact
  {
    if cs[0].id == fact then cs[0] else Current(cs[1..], fact)
  }

  function UpdatedFact(c: Candidate, action: Action, actor: Actor): Candidate {
    c.(value := if action.Correct? then Some(action.value) else c.value,
       status := if action.Reject? then Rejected else HumanConfirmed,
       confirmationRequired := false, confirmedBy := Some(actor.id), confirmedByApprover := actor.approver)
  }

  function WithFact(cs: seq<Candidate>, fact: Candidate): (r: seq<Candidate>)
    ensures |r| == |cs|
  {
    seq(|cs|, i requires 0 <= i < |cs| => if cs[i].id == fact.id then fact else cs[i])
  }

  function Keep(reasons: seq<ReasonCode>, stillUnresolved: bool): seq<ReasonCode> {
    if reasons == [] then []
    else
      Keep(reasons[..|reasons| - 1], stillUnresolved)
        + if reasons[|reasons| - 1] == HumanConfirmationRequired && !stillUnresolved then []
          else [reasons[|reasons| - 1]]
  }

  function ConfirmFact(r: Report, fact: Id, action: Action, actor: Actor, reasonGiven: bool)
    : Result<Report, ConfirmError>
  {
    if !actor.human then Failure(HumanActorRequired)
    else if !actor.mayConfirm then Failure(ConfirmationForbidden)
    else if action.UnknownAction? then Failure(InvalidAction)
    else if action.CorrectNothing? || (action.Correct? && action.value.empty) then Failure(CorrectedValueRequired)
    else if !reasonGiven then Failure(ReasonRequired)
    else if !HasFact(r.candidates, fact) then Failure(FactNotFound)
    else
      var cs := WithFact(r.candidates, UpdatedFact(Current(r.candidates, fact), action, actor));
      var stillUnresolved := exists c :: c in cs && c.confirmationRequired && c.status == Unresolved;
      var kept := Keep(r.reasons, stillUnresolved);
      var reasons := if action.Correct? && ReverificationRequired !in kept then kept + [ReverificationRequired]
        else kept;
      Success(r.(candidates := cs, reasons := reasons,
        ready := reasons == [] && r.findings == [] && r.unresolved == []))
  }

  // ---------------------------------------------------------------- any sequence of steps

  datatype Op =
    | OpConfirm(fact: Id, action: Action, actor: Actor, reasonGiven: bool)
    | OpReverify(policy: Option<PolicyContext>, today: int)

  /** A step that is refused or raises leaves the stored report alone. */
  function Apply(r: Report, op: Op): Report {
    match op
    case OpConfirm(fact, action, actor, reasonGiven) =>
      var confirmed := ConfirmFact(r, fact, action, actor, reasonGiven);
      if confirmed.Success? then confirmed.value else r
    case OpReverify(policy, today) =>
      var verified := ReverifyOn(policy, today, r);
      if verified.Success? then verified.value else r
  }

  ghost predicate History(e: Extraction, policy: Option<PolicyContext>, today: int, ops: seq<Op>, rs: seq<Report>) {
    && |rs| == |ops| + 1
    && VerifyOn(policy, today, e) == Success(rs[0])
    && forall i {:trigger ops[i]} :: 0 <= i < |ops| ==> rs[i + 1] == Apply(rs[i], ops[i])
  }

  lemma {:induction false} KeepKeeps(reasons: seq<ReasonCode>, stillUnresolved: bool, x: ReasonCode)
    ensures x in Keep(reasons, stillUnresolved) <==> x in reasons && (x != HumanConfirmationRequired || stillUnresolved)
  {
    if reasons != [] {
      var init := reasons[..|reasons| - 1];
      KeepKeeps(init, stillUnresolved, x);
      assert reasons == init + [reasons[|reasons| - 1]];
    }
  }

  lemma FreshReasons(cs: seq<Candidate>, policy: Option<PolicyContext>, unresolved: seq<Requirement>, conflicts: bool)
    ensures ConflictsUnresolved in Reasons(cs, policy, unresolved, conflicts) <==> conflicts
    ensures MandatoryInformationMissing in Reasons(cs, policy, unresolved, conflicts) <==> unresolved != []
    ensures ReverificationRequired !in Reasons(cs, policy, unresolved, conflicts)
  {
    hide Reasons;
    MissingNamesFacts(cs, ConflictsUnresolved);
    MissingNamesFacts(cs, MandatoryInformationMissing);
    MissingNamesFacts(cs, ReverificationRequired);
    ReasonsExactly(cs, policy, unresolved, conflicts, ConflictsUnresolved);
    ReasonsExactly(cs, policy, unresolved, conflicts, MandatoryInformationMissing);
    ReasonsExactly(cs, policy, unresolved, conflicts, ReverificationRequired);
  }

  lemma MissingNamesFacts(cs: seq<Candidate>, x: ReasonCode)
    ensures x in Missing(cs) ==> x.RequiredFactMissing?
  {
    hide HasTrusted;
  }

  /** What each reason of a fresh report stands for. */
  lemma ReasonsExactly(
    cs: seq<Candidate>, policy: Option<PolicyContext>, unresolved: seq<Requirement>, conflicts: bool, x: ReasonCode)
    ensures x in Reasons(cs, policy, unresolved, conflicts) <==>
            || (policy.None? && x == TrustedPolicyUnavailable)
            || (conflicts && x == ConflictsUnresolved)
            || (unresolved != [] && x == MandatoryInformationMissing)
            || x in Missing(cs)
            || ((exists c :: c in cs && AwaitsPerson(c)) && x == HumanConfirmationRequired)
  {
    hide Missing, AwaitsPerson;
  }

  // ---------------------------------------------------------------- conflicts and open requirements

  lemma ConflictStepKeeps(r: Report, op: Op)
    requires ConflictsUnresolved in r.reasons
    ensures ConflictsUnresolved in Apply(r, op).reasons
    ensures Apply(r, op) == r || !Apply(r, op).ready
  {
    match op
    case OpConfirm(fact, action, actor, reasonGiven) =>
      if ConfirmFact(r, fact, action, actor, reasonGiven).Success? {
        var cs := WithFact(r.candidates, UpdatedFact(Current(r.candidates, fact), action, actor));
        KeepKeeps(r.reasons, exists c :: c in cs && c.confirmationRequired && c.status == Unresolved,
          ConflictsUnresolved);
      }
    case OpReverify(policy, today) =>
      var cs := VerifyCandidates(r.candidates, policy);
      FreshReasons(cs, policy, StillUnresolved(r.unresolved, ApprovalConfirmed(cs)), true);
  }

  /** An intake extracted with conflicts is never ready, whatever is confirmed and however often it is re-verified. */
  lemma {:induction false} ConflictsNeverReady(
    e: Extraction, policy: Option<PolicyContext>, today: int, ops: seq<Op>, rs: seq<Report>, i: nat)
    requires History(e, policy, today, ops, rs) && i <= |ops| && e.conflicts
    ensures !rs[i].ready && ConflictsUnresolved in rs[i].reasons
  {
    hide Apply, Reasons, Findings, Malformed, VerifyCandidates;
    if i == 0 {
      FreshReasons(VerifyCandidates(e.candidates, policy), policy, e.requirements, true);
    } else {
      ConflictsNeverReady(e, policy, today, ops, rs, i - 1);
      assert rs[i] == Apply(rs[i - 1], ops[i - 1]);
      ConflictStepKeeps(rs[i - 1], ops[i - 1]);
    }
  }

  lemma {:induction false} OnlyApprovalsResolve(requirements: seq<Requirement>, approved: bool, q: Requirement)
    ensures q in StillUnresolved(requirements, approved) <==>
            q in requirements && !(approved && q.kind == ApprovalClaim)
  {
    if requirements != [] {
      var init := requirements[..|requirements| - 1];
      OnlyApprovalsResolve(init, approved, q);
      assert requirements == init + [requirements[|requirements| - 1]];
    }
  }

  lemma OpenStepKeeps(r: Report, op: Op, q: Requirement)
    requires q in r.unresolved && q.kind != ApprovalClaim && !r.ready
    ensures q in Apply(r, op).unresolved && !Apply(r, op).ready
  {
    hide Reasons, Findings, Malformed, VerifyCandidates, StillUnresolved, ApprovalConfirmed;
    if op.OpReverify? {
      var cs := VerifyCandidates(r.candidates, op.policy);
      OnlyApprovalsResolve(r.unresolved, ApprovalConfirmed(cs), q);
      FreshReasons(cs, op.policy, StillUnresolved(r.unresolved, ApprovalConfirmed(cs)),
        ConflictsUnresolved in r.reasons);
    }
  }

  lemma OpenAtFirst(e: Extraction, policy: Option<PolicyContext>, today: int, q: Requirement)
    requires VerifyOn(policy, today, e).Success? && q in e.requirements
    ensures q in VerifyOn(policy, today, e).value.unresolved && !VerifyOn(policy, today, e).value.ready
  {
    hide Reasons, Findings, Malformed, VerifyCandidates;
    FreshReasons(VerifyCandidates(e.candidates, policy), policy, e.requirements, e.conflicts);
  }

  /** Ready reports have nothing open; and every open requirement of the extraction but an approval stays open. */
  lemma {:induction false} OpenRequirementsStay(
    e: Extraction, policy: Option<PolicyContext>, today: int, ops: seq<Op>, rs: seq<Report>, i: nat, q: Requirement)
    requires History(e, policy, today, ops, rs) && i <= |ops|
    requires q in e.requirements && q.kind != ApprovalClaim
    ensures q in rs[i].unresolved && !rs[i].ready
  {
    hide VerifyOn, Apply;
    if i == 0 {
      OpenAtFirst(e, policy, today, q);
    } else {
      OpenRequirementsStay(e, policy, today, ops, rs, i - 1, q);
      assert rs[i] == Apply(rs[i - 1], ops[i - 1]);
      OpenStepKeeps(rs[i - 1], ops[i - 1], q);
    }
  }

  lemma MarkStays(r: Report, op: Op)
    requires op.OpConfirm? || ReverifyOn(op.policy, op.today, r).Failure?
    requires ReverificationRequired in r.reasons
    ensures ReverificationRequired in Apply(r, op).reasons && (Apply(r, op).ready ==> r.ready)
  {
    if op.OpConfirm? && ConfirmFact(r, op.fact, op.action, op.actor, op.reasonGiven).Success? {
      var cs := WithFact(r.candidates, UpdatedFact(Current(r.candidates, op.fact), op.action, op.actor));
      KeepKeeps(r.reasons, exists c :: c in cs && c.confirmationRequired && c.status == Unresolved,
        ReverificationRequired);
    }
  }

  lemma CorrectionMarks(r: Report, op: Op)
    requires op.OpConfirm? && op.action.Correct? && Apply(r, op) != r
    ensures ReverificationRequired in Apply(r, op).reasons && !Apply(r, op).ready
  {
  }

  /** A correction makes the report not ready until a re-verification that does not raise. */
  lemma {:induction false} CorrectionNeedsReverification(
    e: Extraction, policy: Option<PolicyContext>, today: int, ops: seq<Op>, rs: seq<Report>, i: nat, j: nat)
    requires History(e, policy, today, ops, rs) && i < j <= |ops|
    requires ops[i].OpConfirm? && ops[i].action.Correct? && rs[i + 1] != rs[i]
    requires forall k :: i < k < j ==> ops[k].OpConfirm? || ReverifyOn(ops[k].policy, ops[k].today, rs[k]).Failure?
    ensures !rs[j].ready && ReverificationRequired in rs[j].reasons
  {
    hide VerifyOn, Apply, ReverifyOn;
    assert rs[j] == Apply(rs[j - 1], ops[j - 1]);
    if i < j - 1 {
      CorrectionNeedsReverification(e, policy, today, ops, rs, i, j - 1);
      MarkStays(rs[j - 1], ops[j - 1]);
    } else {
      CorrectionMarks(rs[j - 1], ops[j - 1]);
    }
  }

  // ---------------------------------------------------------------- a confirmation alone does not re-check the facts

  /** After a re-verification, readiness implies the three required facts are trusted... */
  lemma ReverifiedReadyHasFacts(r: Report, policy: Option<PolicyContext>, today: int)
    requires ReverifyOn(policy, today, r).Success? && ReverifyOn(policy, today, r).value.ready
    ensures var r' := ReverifyOn(policy, today, r).value;
      HasTrusted(r'.candidates, Amount) && HasTrusted(r'.candidates, DiscountPercent)
        && HasTrusted(r'.candidates, MarginPercent)
  {
    var cs := VerifyCandidates(r.candidates, policy);
    ReadyExactly(cs, policy, today, StillUnresolved(r.unresolved, ApprovalConfirmed(cs)),
      ConflictsUnresolved in r.reasons);
  }

  /**
   ...but a confirmation without one may take a required fact away: a ready report whose facts are all in place stays
   ready and keeps them exactly unless the step rejects the only trusted fact of a required type.
   */
  lemma ConfirmationKeepsFacts(r: Report, fact: Id, action: Action, actor: Actor, reasonGiven: bool, kind: FactType)
    requires HasTrusted(r.candidates, kind) && ConfirmFact(r, fact, action, actor, reasonGiven).Success?
    requires forall i, j :: 0 <= i < j < |r.candidates| ==> r.candidates[i].id != r.candidates[j].id
    ensures HasTrusted(ConfirmFact(r, fact, action, actor, reasonGiven).value.candidates, kind) <==>
            !(action.Reject? &&
              forall i :: 0 <= i < |r.candidates| && r.candidates[i].kind == kind && Trusted(r.candidates[i]) ==>
                r.candidates[i].id == fact)
  {
    var before, after := r.candidates, ConfirmFact(r, fact, action, actor, reasonGiven).value.candidates;
    var c := Current(before, fact);
    forall i | 0 <= i < |before|
      ensures after[i] == if before[i].id == fact then UpdatedFact(before[i], action, actor) else before[i]
    {
      if before[i].id == fact {
        var k :| 0 <= k < |before| && before[k] == c;
        assert i == k;
      }
    }
    if i :| 0 <= i < |before| && before[i].kind == kind && Trusted(before[i])
            && (before[i].id != fact || !action.Reject?)
    {
      assert after[i].kind == kind && Trusted(after[i]);
    }
  }

  /** An input for it: rejecting the one trusted amount of a ready report without findings leaves it ready. */
  lemma RejectedAmountStaysReady(r: Report, k: nat, actor: Actor)
    requires r.ready && r.findings == [] && r.unresolved == [] && r.reasons == []
    requires forall i, j :: 0 <= i < j < |r.candidates| ==> r.candidates[i].id != r.candidates[j].id
    requires k < |r.candidates| && r.candidates[k].kind == Amount && Trusted(r.candidates[k])
    requires forall i :: 0 <= i < |r.candidates| && i != k ==> r.candidates[i].kind != Amount
    requires actor.human && actor.mayConfirm
    ensures var r' := ConfirmFact(r, r.candidates[k].id, Reject, actor, true);
      r'.Success? && r'.value.ready && !HasTrusted(r'.value.candidates, Amount)
  {
    ConfirmationKeepsFacts(r, r.candidates[k].id, Reject, actor, true, Amount);
  }
}
