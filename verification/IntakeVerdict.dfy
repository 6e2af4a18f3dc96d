/** End to end: from any run of an intake to the verdict on its decision file, and when that verdict fits the facts. */
module IntakeVerdict {
  import opened Wrappers
  import opened IntakeVerification
  import opened IntakeRuns
  import opened IntakeDecision
  import G = GovernanceEngine

  // ---------------------------------------------------------------- the last verification

  /** Report j was just verified: by the first verification, or by a re-verification that did not raise. */
  predicate CheckedAt(ops: seq<Op>, rs: seq<Report>, j: nat)
    requires j <= |ops| < |rs|
  {
    j == 0 || (ops[j - 1].OpReverify? && ReverifyOn(ops[j - 1].policy, ops[j - 1].today, rs[j - 1]).Success?)
  }

  function LastCheck(ops: seq<Op>, rs: seq<Report>, i: nat): (j: nat)
    requires i <= |ops| < |rs|
    ensures j <= i && CheckedAt(ops, rs, j)
  {
    if CheckedAt(ops, rs, i) then i else LastCheck(ops, rs, i - 1)
  }

  function PolicyAt(first: Option<PolicyContext>, ops: seq<Op>, j: nat): Option<PolicyContext>
    requires j <= |ops|
  {
    if j == 0 || ops[j - 1].OpConfirm? then first else ops[j - 1].policy
  }

  function DayAt(day: int, ops: seq<Op>, j: nat): int
    requires j <= |ops|
  {
    if j == 0 || ops[j - 1].OpConfirm? then day else ops[j - 1].today
  }

  /** A report as a verification under this policy leaves it. */
  predicate FreshlyVerified(r: Report, policy: Option<PolicyContext>, today: int) {
    && (policy.Some? ==> !Malformed(r.candidates) && r.findings == Findings(r.candidates, policy.value, today))
    && (policy.None? ==> TrustedPolicyUnavailable in r.reasons && !r.ready)
  }

  lemma BuiltIsVerified(
    cs: seq<Candidate>, policy: Option<PolicyContext>, today: int, unresolved: seq<Requirement>, conflicts: bool)
    requires BuildReportOn(cs, policy, today, unresolved, conflicts).Success?
    ensures FreshlyVerified(BuildReportOn(cs, policy, today, unresolved, conflicts).value, policy, today)
  {
    hide Malformed, Findings, Missing, HasTrusted, AwaitsPerson;
  }

  lemma CheckedIsVerified(e: Extraction, first: Option<PolicyContext>, day: int, ops: seq<Op>, rs: seq<Report>, j: nat)
    requires History(e, first, day, ops, rs) && j <= |ops| && CheckedAt(ops, rs, j)
    ensures FreshlyVerified(rs[j], PolicyAt(first, ops, j), DayAt(day, ops, j))
  {
    hide BuildReportOn, FreshlyVerified, VerifyCandidates;
    if j == 0 {
      BuiltIsVerified(VerifyCandidates(e.candidates, first), first, day, e.requirements, e.conflicts);
    } else {
      var r, op := rs[j - 1], ops[j - 1];
      assert rs[j] == Apply(r, op);
      var cs := VerifyCandidates(r.candidates, op.policy);
      BuiltIsVerified(cs, op.policy, op.today, StillUnresolved(r.unresolved, ApprovalConfirmed(cs)),
        ConflictsUnresolved in r.reasons);
    }
  }

  /** A step that is no successful verification keeps the findings, and readiness then needs there to be none. */
  lemma UncheckedStep(r: Report, op: Op)
    requires op.OpConfirm? || ReverifyOn(op.policy, op.today, r).Failure?
    ensures Apply(r, op).findings == r.findings
    ensures Apply(r, op) == r || (Apply(r, op).ready ==> r.findings == [])
    ensures TrustedPolicyUnavailable in r.reasons && !r.ready ==>
              TrustedPolicyUnavailable in Apply(r, op).reasons && !Apply(r, op).ready
  {
    if op.OpConfirm? && ConfirmFact(r, op.fact, op.action, op.actor, op.reasonGiven).Success? {
      var cs := WithFact(r.candidates, UpdatedFact(Current(r.candidates, op.fact), op.action, op.actor));
      KeepKeeps(r.reasons, exists c :: c in cs && c.confirmationRequired && c.status == Unresolved,
        TrustedPolicyUnavailable);
    }
  }

  lemma {:induction false} SinceLastCheck(
    e: Extraction, first: Option<PolicyContext>, day: int, ops: seq<Op>, rs: seq<Report>, i: nat)
    requires History(e, first, day, ops, rs) && i <= |ops|
    ensures var j := LastCheck(ops, rs, i);
      && rs[i].findings == rs[j].findings
      && (rs[i] == rs[j] || (rs[i].ready ==> rs[i].findings == []))
      && (PolicyAt(first, ops, j).None? ==> TrustedPolicyUnavailable in rs[i].reasons && !rs[i].ready)
  {
    hide Apply, ReverifyOn, Findings, Malformed, VerifyOn;
    if CheckedAt(ops, rs, i) {
      CheckedIsVerified(e, first, day, ops, rs, i);
    } else {
      SinceLastCheck(e, first, day, ops, rs, i - 1);
      assert rs[i] == Apply(rs[i - 1], ops[i - 1]);
      UncheckedStep(rs[i - 1], ops[i - 1]);
    }
  }

  // ---------------------------------------------------------------- the verdict

  /** What the policy says of the facts. */
  ghost function FactVerdict(cs: seq<Candidate>, policy: PolicyContext, today: int): G.Outcome
    requires !Malformed(cs)
  {
    if exists code :: code in MANDATORY && Breached(cs, policy, today, code) then G.Block
    else if exists code :: Breached(cs, policy, today, code) then G.Review
    else G.Pass
  }

  lemma FindingsGiveVerdict(cs: seq<Candidate>, policy: PolicyContext, today: int)
    requires !Malformed(cs)
    ensures FactVerdict(cs, policy, today) ==
            if HasMandatory(Findings(cs, policy, today)) then G.Block
            else if Findings(cs, policy, today) != [] then G.Review
            else G.Pass
  {
    FindingsMean(cs, policy, today);
    hide Findings, Breached, Malformed, HasMandatory;
  }

  /**
   Take any point of any run at which the report compiles. Its file can be evaluated, and the verdict is the policy's
   on the facts as they were at the last verification, the first one included. A report confirmed since then compiles
   only without findings, so its verdict is PASS; and an intake with conflicts never gets as far as a file.
   */
  lemma VerdictFollowsPolicy(
    e: Extraction, first: Option<PolicyContext>, day: int, ops: seq<Op>, rs: seq<Report>, i: nat,
    policy: PolicyContext, status: IntakeStatus, now: int, later: int)
    requires History(e, first, day, ops, rs) && i <= |ops|
    requires forall a, b :: 0 <= a < b < |e.candidates| ==> e.candidates[a].id != e.candidates[b].id
    requires Compile(rs[i], policy, status, now).Success?
    ensures var j := LastCheck(ops, rs, i);
      var used, verdict := PolicyAt(first, ops, j), Evaluate(Compile(rs[i], policy, status, now).value, later);
      && !e.conflicts && used.Some? && !Malformed(rs[j].candidates) && verdict.Success?
      && verdict.value.1.outcome == FactVerdict(rs[j].candidates, used.value, DayAt(day, ops, j))
      && (rs[i] != rs[j] ==> verdict.value.1.outcome == G.Pass)
  {
    var j := LastCheck(ops, rs, i);
    assert rs[i].ready;
    CompiledVerdict(rs[i], policy, status, now, later) by { RunsKeepIdsDistinct(e, first, day, ops, rs, i); }
    hide Compile, Evaluate, Apply, VerifyOn, ReverifyOn, Malformed, SharedId, RequestOf;
    if e.conflicts {
      ConflictsNeverReady(e, first, day, ops, rs, i);
    }
    SinceLastCheck(e, first, day, ops, rs, i);
    CheckedIsVerified(e, first, day, ops, rs, j);
    FindingsGiveVerdict(rs[j].candidates, PolicyAt(first, ops, j).value, DayAt(day, ops, j));
    hide Findings, FactVerdict;
  }

  /**
   So the verdict on a report confirmed since its last verification is the policy's on the facts as they are now if and
   only if they breach no rule now.
   */
  lemma ConfirmedVerdictFits(
    e: Extraction, first: Option<PolicyContext>, day: int, ops: seq<Op>, rs: seq<Report>, i: nat,
    policy: PolicyContext, status: IntakeStatus, now: int, later: int)
    requires History(e, first, day, ops, rs) && i <= |ops|
    requires forall a, b :: 0 <= a < b < |e.candidates| ==> e.candidates[a].id != e.candidates[b].id
    requires Compile(rs[i], policy, status, now).Success? && rs[i] != rs[LastCheck(ops, rs, i)]
             && !Malformed(rs[i].candidates)
    ensures var j, verdict := LastCheck(ops, rs, i), Evaluate(Compile(rs[i], policy, status, now).value, later);
      && verdict.Success? && PolicyAt(first, ops, j).Some?
      && (verdict.value.1.outcome ==
           FactVerdict(rs[i].candidates, PolicyAt(first, ops, j).value, DayAt(day, ops, j)) <==>
          forall code :: !Breached(rs[i].candidates, PolicyAt(first, ops, j).value, DayAt(day, ops, j), code))
  {
    VerdictFollowsPolicy(e, first, day, ops, rs, i, policy, status, now, later);
    hide Compile, Evaluate, Apply, VerifyOn, ReverifyOn, Malformed, Breached, LastCheck, History, FactVerdict;
    var j := LastCheck(ops, rs, i);
    PassExactly(rs[i].candidates, PolicyAt(first, ops, j).value, DayAt(day, ops, j));
  }

  lemma PassExactly(cs: seq<Candidate>, policy: PolicyContext, today: int)
    requires !Malformed(cs)
    ensures FactVerdict(cs, policy, today) == G.Pass <==> forall code :: !Breached(cs, policy, today, code)
  {
    hide Malformed, Breached;
  }

  // ---------------------------------------------------------------- which confirmations can part verdict and facts

  const GOVERNANCE: set<FactType> := {PolicyClaim, ExceptionClaim, ApprovalClaim, SelfApprovalClaim}

  /** One candidate's standing changed and nothing the number and date rules look at. */
  predicate Restood(before: seq<Candidate>, after: seq<Candidate>, k: nat) {
    && k < |before| == |after|
    && (forall i :: 0 <= i < |before| && i != k ==> after[i] == before[i])
    && after[k].kind == before[k].kind && after[k].value == before[k].value
    && after[k].namesRoles == before[k].namesRoles
  }

  /** A confirmation or rejection that is accepted re-stands exactly the named candidate. */
  lemma ConfirmationRestands(r: Report, k: nat, action: Action, actor: Actor, reasonGiven: bool)
    requires k < |r.candidates| && (action.Confirm? || action.Reject?)
    requires forall i, j :: 0 <= i < j < |r.candidates| ==> r.candidates[i].id != r.candidates[j].id
    requires ConfirmFact(r, r.candidates[k].id, action, actor, reasonGiven).Success?
    ensures var r' := ConfirmFact(r, r.candidates[k].id, action, actor, reasonGiven).value;
      Restood(r.candidates, r'.candidates, k) && r'.candidates[k] == UpdatedFact(r.candidates[k], action, actor)
  {
    var c := Current(r.candidates, r.candidates[k].id);
    var m :| 0 <= m < |r.candidates| && r.candidates[m] == c;
    assert m == k;
  }

  lemma {:induction false} FirstRestands(before: seq<Candidate>, after: seq<Candidate>, k: nat, kind: FactType)
    requires Restood(before, after, k)
    ensures First(before, kind).Some? <==> First(after, kind).Some?
    ensures First(before, kind).Some? ==>
              && First(before, kind).value.value == First(after, kind).value.value
              && First(before, kind).value.namesRoles == First(after, kind).value.namesRoles
  {
    if before[0].kind != kind {
      if k == 0 {
        assert before[1..] == after[1..];
      } else {
        assert Restood(before[1..], after[1..], k - 1);
        FirstRestands(before[1..], after[1..], k - 1, kind);
      }
    }
  }

  /** Re-standing a fact that is no governance claim changes no rule's answer, nor whether one raises. */
  lemma OnlyGovernanceClaimsMatter(
    before: seq<Candidate>, after: seq<Candidate>, k: nat, policy: PolicyContext, today: int, code: ResultCode)
    requires Restood(before, after, k) && before[k].kind !in GOVERNANCE
    ensures Malformed(before) <==> Malformed(after)
    ensures !Malformed(before) ==> (Breached(before, policy, today, code) <==> Breached(after, policy, today, code))
  {
    if !Malformed(before) {
      SameTerms(before, after, k, policy, today);
      if code in CONDUCT {
        SameConduct(before, after, k, policy, today, code);
      }
    } else {
      FirstsRestand(before, after, k);
      hide First;
    }
  }

  lemma SameConduct(
    before: seq<Candidate>, after: seq<Candidate>, k: nat, policy: PolicyContext, today: int, code: ResultCode)
    requires Restood(before, after, k) && before[k].kind !in GOVERNANCE && !Malformed(before) && !Malformed(after)
    requires TooLong(after, policy) == TooLong(before, policy)
             && NeedsApproval(after, policy) == NeedsApproval(before, policy)
    requires code in CONDUCT
    ensures Breached(after, policy, today, code) == Breached(before, policy, today, code)
  {
    hide Malformed, First, TooLong, NeedsApproval, Approvers;
    SameClaims(before, after, k);
    SameApprovers(before, after, k);
    hide Restood;
    assert (exists c :: c in before && ConfirmedException(c, policy)) <==>
      (exists c :: c in after && ConfirmedException(c, policy));
  }

  lemma FirstsRestand(before: seq<Candidate>, after: seq<Candidate>, k: nat)
    requires Restood(before, after, k)
    ensures forall kind ::
              (First(before, kind).Some? <==> First(after, kind).Some?)
              && (First(before, kind).Some? ==>
                    && First(before, kind).value.value == First(after, kind).value.value
                    && First(before, kind).value.namesRoles == First(after, kind).value.namesRoles)
  {
    forall kind
      ensures (First(before, kind).Some? <==> First(after, kind).Some?)
              && (First(before, kind).Some? ==>
                    && First(before, kind).value.value == First(after, kind).value.value
                    && First(before, kind).value.namesRoles == First(after, kind).value.namesRoles)
    {
      FirstRestands(before, after, k, kind);
    }
  }

  lemma SameClaims(before: seq<Candidate>, after: seq<Candidate>, k: nat)
    requires Restood(before, after, k) && before[k].kind !in GOVERNANCE
    ensures forall c: Candidate :: c.kind in GOVERNANCE ==> (c in before <==> c in after)
  {
    forall c: Candidate | c.kind in GOVERNANCE ensures c in before <==> c in after {
      if c in before {
        var i :| 0 <= i < |before| && before[i] == c;
        assert after[i] == c;
      }
      if c in after {
        var i :| 0 <= i < |after| && after[i] == c;
        assert before[i] == c;
      }
    }
  }

  lemma SameApprovers(before: seq<Candidate>, after: seq<Candidate>, k: nat)
    requires Restood(before, after, k) && before[k].kind !in GOVERNANCE
    ensures Approvers(before) == Approvers(after)
  {
    forall i | 0 <= i < |before| ensures ConfirmedApproval(before[i]) ==> before[i] == after[i] {
    }
    forall i | 0 <= i < |after| ensures ConfirmedApproval(after[i]) ==> before[i] == after[i] {
    }
  }

  // ---------------------------------------------------------------- the four confirmations that part them

  predicate NoneBreached(cs: seq<Candidate>, policy: PolicyContext, today: int) {
    !Malformed(cs) && forall code :: !Breached(cs, policy, today, code)
  }

  /** A confirmation or rejection, and not refused. */
  predicate Accepted(r: Report, op: Op) {
    && op.OpConfirm? && (op.action.Confirm? || op.action.Reject?)
    && ConfirmFact(r, op.fact, op.action, op.actor, op.reasonGiven).Success?
  }

  /** The persons whose approval would count once the fact `op` names is confirmed or rejected. */
  function ApproversAfter(cs: seq<Candidate>, op: Op): set<Id>
    requires op.OpConfirm?
  {
    (set i | 0 <= i < |cs| && cs[i].id != op.fact && ConfirmedApproval(cs[i]) && cs[i].confirmedBy.Some? ::
       cs[i].confirmedBy.value)
    + if op.action.Confirm? && op.actor.approver then {op.actor.id} else {}
  }

  predicate ConfirmsSelfApproval(r: Report, op: Op)
    requires Accepted(r, op)
  {
    op.action.Confirm? && Current(r.candidates, op.fact).kind == SelfApprovalClaim
  }

  predicate RejectsPolicy(r: Report, op: Op)
    requires Accepted(r, op)
  {
    op.action.Reject? && Current(r.candidates, op.fact).kind == PolicyClaim
  }

  /** The only confirmed exception of a too long duration is rejected. */
  predicate TakesException(r: Report, op: Op, policy: PolicyContext)
    requires !Malformed(r.candidates) && Accepted(r, op)
  {
    && op.action.Reject? && TooLong(r.candidates, policy)
    && ConfirmedException(Current(r.candidates, op.fact), policy)
    && forall o :: o in r.candidates && o.id != op.fact ==> !ConfirmedException(o, policy)
  }

  /** An approval of an amount that needs some is decided so that too few approvers remain. */
  predicate LeavesTooFew(r: Report, op: Op, policy: PolicyContext)
    requires !Malformed(r.candidates) && Accepted(r, op)
  {
    && Current(r.candidates, op.fact).kind == ApprovalClaim && NeedsApproval(r.candidates, policy)
    && |ApproversAfter(r.candidates, op)| < policy.requiredApprovals
  }

  predicate Parts(r: Report, op: Op, policy: PolicyContext) {
    && Accepted(r, op) && !Malformed(r.candidates)
    && (|| ConfirmsSelfApproval(r, op) || RejectsPolicy(r, op)
        || TakesException(r, op, policy) || LeavesTooFew(r, op, policy))
  }

  ghost predicate DistinctIds(cs: seq<Candidate>) {
    forall i, j :: 0 <= i < j < |cs| ==> cs[i].id != cs[j].id
  }

  /** What the number and date rules read is as before. */
  lemma SameTerms(before: seq<Candidate>, after: seq<Candidate>, k: nat, policy: PolicyContext, today: int)
    requires Restood(before, after, k) && !Malformed(before)
    ensures !Malformed(after)
    ensures TooLong(after, policy) == TooLong(before, policy)
            && NeedsApproval(after, policy) == NeedsApproval(before, policy)
    ensures forall code :: code !in CONDUCT ==>
            Breached(after, policy, today, code) == Breached(before, policy, today, code)
  {
    FirstsRestand(before, after, k);
    hide First;
  }

  /** The rules that look at what persons decided. */
  const CONDUCT: set<ResultCode> := {
    PolicyReferenceNotRegistered, DurationExceptionRequired, RequiredApprovalMissing, SeparationOfDutiesViolation}

  /** The only claim of its kind and status is the one just decided, if it is. */
  lemma ClaimAppears(before: seq<Candidate>, after: seq<Candidate>, k: nat, kind: FactType, status: VerificationStatus)
    requires Restood(before, after, k) && !exists c :: c in before && c.kind == kind && c.status == status
    ensures (exists c :: c in after && c.kind == kind && c.status == status) <==>
            before[k].kind == kind && after[k].status == status
  {
    if c :| c in after && c.kind == kind && c.status == status {
      var i :| 0 <= i < |after| && after[i] == c;
      assert i == k || c in before;
    }
    assert after[k] in after;
  }

  /** An exception goes only with the claim rejected. */
  lemma ExceptionGoes(r: Report, op: Op, k: nat, policy: PolicyContext)
    requires DistinctIds(r.candidates) && Decides(r, op, k)
    requires exists c :: c in r.candidates && ConfirmedException(c, policy)
    ensures (forall c :: c in Apply(r, op).candidates ==> !ConfirmedException(c, policy)) <==>
            && op.action.Reject? && ConfirmedException(r.candidates[k], policy)
            && forall o :: o in r.candidates && o.id != op.fact ==> !ConfirmedException(o, policy)
  {
    var before, after := r.candidates, Apply(r, op).candidates;
    hide Apply;
    forall i | 0 <= i < |before| && i != k ensures before[i] in after && after[i] in before {
      assert after[i] == before[i];
    }
    assert after[k] in after;
    var c :| c in before && ConfirmedException(c, policy);
    var i :| 0 <= i < |before| && before[i] == c;
    if i == k && op.action.Confirm? {
      assert ConfirmedException(after[k], policy);
    }
  }

  lemma ApproversDecided(r: Report, op: Op, k: nat)
    requires DistinctIds(r.candidates) && Decides(r, op, k)
    ensures Approvers(Apply(r, op).candidates) ==
            if r.candidates[k].kind == ApprovalClaim then ApproversAfter(r.candidates, op) else Approvers(r.candidates)
  {
    var before, after := r.candidates, Apply(r, op).candidates;
    hide Apply;
    forall i | 0 <= i < |before| ensures i != k ==> after[i] == before[i] && before[i].id != op.fact {
    }
  }

  /** The step confirms or rejects candidate k and touches nothing else. */
  predicate Decides(r: Report, op: Op, k: nat) {
    && op.OpConfirm? && (op.action.Confirm? || op.action.Reject?)
    && k < |r.candidates| && r.candidates[k].id == op.fact
    && Restood(r.candidates, Apply(r, op).candidates, k)
    && Apply(r, op).candidates[k] == UpdatedFact(r.candidates[k], op.action, op.actor)
  }

  lemma PlaceOf(r: Report, op: Op) returns (k: nat)
    requires DistinctIds(r.candidates) && Accepted(r, op)
    ensures Decides(r, op, k) && Current(r.candidates, op.fact) == r.candidates[k]
  {
    k :| 0 <= k < |r.candidates| && r.candidates[k] == Current(r.candidates, op.fact);
    ConfirmationRestands(r, k, op.action, op.actor, op.reasonGiven);
  }

  /** Each rule on conduct is breached afterwards by one of the four, and by no other step. */
  lemma ConductExactly(r: Report, op: Op, k: nat, policy: PolicyContext, today: int)
    requires DistinctIds(r.candidates) && Accepted(r, op) && Decides(r, op, k)
    requires Current(r.candidates, op.fact) == r.candidates[k]
    requires NoneBreached(r.candidates, policy, today) && !Malformed(Apply(r, op).candidates)
    requires TooLong(Apply(r, op).candidates, policy) == TooLong(r.candidates, policy)
    requires NeedsApproval(Apply(r, op).candidates, policy) == NeedsApproval(r.candidates, policy)
    ensures var after := Apply(r, op).candidates;
      && Breached(after, policy, today, SeparationOfDutiesViolation) == ConfirmsSelfApproval(r, op)
      && Breached(after, policy, today, PolicyReferenceNotRegistered) == RejectsPolicy(r, op)
      && Breached(after, policy, today, DurationExceptionRequired) == TakesException(r, op, policy)
      && Breached(after, policy, today, RequiredApprovalMissing) == LeavesTooFew(r, op, policy)
  {
    hide Apply, Accepted, Current, Malformed, TooLong, NeedsApproval, First, ConfirmedException, ApproversAfter,
      Approvers;
    var before, after := r.candidates, Apply(r, op).candidates;
    assert !Breached(before, policy, today, PolicyReferenceNotRegistered);
    assert !Breached(before, policy, today, SeparationOfDutiesViolation);
    assert !Breached(before, policy, today, DurationExceptionRequired);
    assert !Breached(before, policy, today, RequiredApprovalMissing);
    ClaimAppears(before, after, k, SelfApprovalClaim, HumanConfirmed);
    ClaimAppears(before, after, k, PolicyClaim, Rejected);
    if TooLong(before, policy) {
      ExceptionGoes(r, op, k, policy);
    }
    ApproversDecided(r, op, k);
    hide DistinctIds, Restood;
  }

  /**
   From facts that breach no rule, an accepted confirmation or rejection leads to facts that breach one if and only if
   it is one of the four.
   */
  lemma OnlyFourPart(r: Report, op: Op, policy: PolicyContext, today: int)
    requires DistinctIds(r.candidates) && Accepted(r, op)
    requires NoneBreached(r.candidates, policy, today)
    ensures NoneBreached(Apply(r, op).candidates, policy, today) <==> !Parts(r, op, policy)
  {
    hide Apply, Accepted, Current, Malformed, Breached, TooLong, NeedsApproval, DistinctIds, Restood, UpdatedFact;
    hide ConfirmsSelfApproval, RejectsPolicy, TakesException, LeavesTooFew;
    var k := PlaceOf(r, op);
    SameTerms(r.candidates, Apply(r, op).candidates, k, policy, today);
    ConductExactly(r, op, k, policy, today);
    hide Decides;
  }

  // ---------------------------------------------------------------- the same over runs

  /** An accepted confirmation or rejection, or a step without effect. */
  predicate Settles(r: Report, op: Op) { Accepted(r, op) || Apply(r, op) == r }

  /** Steps a to b of a run verify nothing and correct nothing. */
  predicate OnlySettles(ops: seq<Op>, rs: seq<Report>, a: nat, b: nat)
    requires a <= b <= |ops| < |rs|
  {
    forall m :: a <= m < b ==> Settles(rs[m], ops[m])
  }

  /** No report from a to b breaches a rule. */
  ghost predicate NeverBreached(rs: seq<Report>, a: nat, b: nat, policy: PolicyContext, today: int)
    requires a <= b < |rs|
  {
    forall m :: a <= m <= b ==> NoneBreached(rs[m].candidates, policy, today)
  }

  /** No step from a to b is one of the four. */
  ghost predicate NeverParts(ops: seq<Op>, rs: seq<Report>, a: nat, b: nat, policy: PolicyContext)
    requires a <= b <= |ops| < |rs|
  {
    forall m :: a <= m < b ==> !Parts(rs[m], ops[m], policy)
  }

  /** Facts that breach no rule stay that way throughout if and only if no step is one of the four. */
  lemma {:induction false} FitThroughout(
    e: Extraction, first: Option<PolicyContext>, day: int, ops: seq<Op>, rs: seq<Report>, a: nat, b: nat,
    policy: PolicyContext, today: int)
    requires History(e, first, day, ops, rs) && a <= b <= |ops| && DistinctIds(e.candidates)
    requires OnlySettles(ops, rs, a, b) && NoneBreached(rs[a].candidates, policy, today)
    ensures NeverBreached(rs, a, b, policy, today) <==> NeverParts(ops, rs, a, b, policy)
    decreases b
  {
    hide Apply, VerifyOn, NoneBreached, Parts, Settles, NeverBreached, NeverParts, DistinctIds, OnlySettles;
    assert |rs| == |ops| + 1;
    hide History;
    if a < b {
      OnlySettlesUpTo(ops, rs, a, b);
      FitThroughout(e, first, day, ops, rs, a, b - 1, policy, today);
      NeverBreachedUpTo(rs, a, b, policy, today);
      NeverPartsUpTo(ops, rs, a, b, policy);
      SettledAt(e, first, day, ops, rs, b - 1, policy, today);
    } else {
      NothingParts(ops, rs, a, policy, today);
    }
  }

  lemma OnlySettlesUpTo(ops: seq<Op>, rs: seq<Report>, a: nat, b: nat)
    requires a < b <= |ops| < |rs| && OnlySettles(ops, rs, a, b)
    ensures OnlySettles(ops, rs, a, b - 1) && Settles(rs[b - 1], ops[b - 1])
  {
    hide Settles;
  }

  lemma NothingParts(ops: seq<Op>, rs: seq<Report>, a: nat, policy: PolicyContext, today: int)
    requires a <= |ops| < |rs| && NoneBreached(rs[a].candidates, policy, today)
    ensures NeverBreached(rs, a, a, policy, today) && NeverParts(ops, rs, a, a, policy)
  {
  }

  lemma NeverBreachedUpTo(rs: seq<Report>, a: nat, b: nat, policy: PolicyContext, today: int)
    requires a < b < |rs|
    ensures NeverBreached(rs, a, b, policy, today) <==>
            NeverBreached(rs, a, b - 1, policy, today) && NoneBreached(rs[b].candidates, policy, today)
    ensures NeverBreached(rs, a, b - 1, policy, today) ==> NoneBreached(rs[b - 1].candidates, policy, today)
  {
    hide NoneBreached;
  }

  lemma NeverPartsUpTo(ops: seq<Op>, rs: seq<Report>, a: nat, b: nat, policy: PolicyContext)
    requires a < b <= |ops| < |rs|
    ensures NeverParts(ops, rs, a, b, policy) <==>
            NeverParts(ops, rs, a, b - 1, policy) && !Parts(rs[b - 1], ops[b - 1], policy)
  {
    hide Parts;
  }

  lemma SettledAt(
    e: Extraction, first: Option<PolicyContext>, day: int, ops: seq<Op>, rs: seq<Report>, m: nat,
    policy: PolicyContext, today: int)
    requires History(e, first, day, ops, rs) && m < |ops| && DistinctIds(e.candidates) && Settles(rs[m], ops[m])
    ensures NoneBreached(rs[m].candidates, policy, today) ==>
              (NoneBreached(rs[m + 1].candidates, policy, today) <==> !Parts(rs[m], ops[m], policy))
  {
    hide Apply, NoneBreached, Parts, Settles;
    assert rs[m + 1] == Apply(rs[m], ops[m]);
    RunsKeepIdsDistinct(e, first, day, ops, rs, m);
    if NoneBreached(rs[m].candidates, policy, today) {
      SettledStep(rs[m], ops[m], policy, today);
    }
  }

  lemma SettledStep(r: Report, op: Op, policy: PolicyContext, today: int)
    requires DistinctIds(r.candidates) && Settles(r, op) && NoneBreached(r.candidates, policy, today)
    ensures NoneBreached(Apply(r, op).candidates, policy, today) <==> !Parts(r, op, policy)
  {
    hide Apply, Accepted, NoneBreached, ConfirmsSelfApproval, RejectsPolicy, TakesException, LeavesTooFew;
    if Accepted(r, op) {
      OnlyFourPart(r, op, policy, today);
    }
  }

  lemma {:induction false} NotCheckedSince(ops: seq<Op>, rs: seq<Report>, i: nat, m: nat)
    requires i <= |ops| < |rs| && LastCheck(ops, rs, i) < m <= i
    ensures !CheckedAt(ops, rs, m)
  {
    hide CheckedAt;
    if m < i {
      NotCheckedSince(ops, rs, i - 1, m);
    }
  }

  /** A step that is no successful verification settles a fact, corrects one, or has no effect. */
  lemma UncheckedSettles(r: Report, op: Op)
    requires op.OpConfirm? || ReverifyOn(op.policy, op.today, r).Failure?
    ensures Settles(r, op) || (op.OpConfirm? && op.action.Correct?)
  {
  }

  /** A ready report was not corrected since its last verification. */
  lemma ReadyOnlySettled(e: Extraction, first: Option<PolicyContext>, day: int, ops: seq<Op>, rs: seq<Report>, i: nat)
    requires History(e, first, day, ops, rs) && i <= |ops| && rs[i].ready
    ensures OnlySettles(ops, rs, LastCheck(ops, rs, i), i)
  {
    hide Apply, ReverifyOn, LastCheck, VerifyOn, Accepted;
    var j := LastCheck(ops, rs, i);
    forall m | j <= m < i ensures ops[m].OpConfirm? || ReverifyOn(ops[m].policy, ops[m].today, rs[m]).Failure? {
      NotCheckedSince(ops, rs, i, m + 1);
    }
    forall m | j <= m < i ensures Settles(rs[m], ops[m]) {
      assert rs[m + 1] == Apply(rs[m], ops[m]);
      UncheckedSettles(rs[m], ops[m]);
      if !Settles(rs[m], ops[m]) {
        CorrectionNeedsReverification(e, first, day, ops, rs, m, i);
      }
    }
  }

  /** The facts of the last verification breached no rule if a report confirmed since then is ready. */
  lemma CleanAtLastCheck(e: Extraction, first: Option<PolicyContext>, day: int, ops: seq<Op>, rs: seq<Report>, i: nat)
    requires History(e, first, day, ops, rs) && i <= |ops| && rs[i].ready && rs[i] != rs[LastCheck(ops, rs, i)]
    ensures var j := LastCheck(ops, rs, i);
      && PolicyAt(first, ops, j).Some?
      && NoneBreached(rs[j].candidates, PolicyAt(first, ops, j).value, DayAt(day, ops, j))
  {
    hide Apply, ReverifyOn, VerifyOn, Malformed, Breached, Findings;
    var j := LastCheck(ops, rs, i);
    SinceLastCheck(e, first, day, ops, rs, i);
    CheckedIsVerified(e, first, day, ops, rs, j);
    FindingsMean(rs[j].candidates, PolicyAt(first, ops, j).value, DayAt(day, ops, j));
  }

  /**
   A report made ready by confirmations since its last verification. Its verdict is PASS, which fits facts that breach
   no rule; so it fits the facts at every point since then if and only if no step was one of the four.
   */
  lemma VerdictFitsThroughout(
    e: Extraction, first: Option<PolicyContext>, day: int, ops: seq<Op>, rs: seq<Report>, i: nat,
    policy: PolicyContext, status: IntakeStatus, now: int, later: int)
    requires History(e, first, day, ops, rs) && i <= |ops| && DistinctIds(e.candidates)
    requires Compile(rs[i], policy, status, now).Success? && rs[i] != rs[LastCheck(ops, rs, i)]
    ensures var j, verdict := LastCheck(ops, rs, i), Evaluate(Compile(rs[i], policy, status, now).value, later);
      && PolicyAt(first, ops, j).Some? && verdict.Success? && verdict.value.1.outcome == G.Pass
      && (NeverBreached(rs, j, i, PolicyAt(first, ops, j).value, DayAt(day, ops, j)) <==>
          NeverParts(ops, rs, j, i, PolicyAt(first, ops, j).value))
  {
    assert rs[i].ready;
    VerdictFollowsPolicy(e, first, day, ops, rs, i, policy, status, now, later);
    hide Compile, Evaluate, Apply, VerifyOn, ReverifyOn, NoneBreached, Parts, FactVerdict, Malformed, LastCheck;
    CleanAtLastCheck(e, first, day, ops, rs, i);
    ReadyOnlySettled(e, first, day, ops, rs, i);
    var j := LastCheck(ops, rs, i);
    FitThroughout(e, first, day, ops, rs, j, i, PolicyAt(first, ops, j).value, DayAt(day, ops, j));
  }

  /** The fact confirmed or rejected is a governance claim. */
  predicate SettlesGovernance(r: Report, op: Op) {
    Accepted(r, op) && Current(r.candidates, op.fact).kind in GOVERNANCE
  }

  /** Settling other facts than governance claims changes no rule's answer, however many steps it takes. */
  lemma {:induction false} OtherFactsNeverMatter(
    e: Extraction, first: Option<PolicyContext>, day: int, ops: seq<Op>, rs: seq<Report>, a: nat, b: nat,
    policy: PolicyContext, today: int, code: ResultCode)
    requires History(e, first, day, ops, rs) && a <= b <= |ops| && DistinctIds(e.candidates)
             && OnlySettles(ops, rs, a, b)
    requires forall m :: a <= m < b ==> !SettlesGovernance(rs[m], ops[m])
    ensures Malformed(rs[a].candidates) <==> Malformed(rs[b].candidates)
    ensures !Malformed(rs[a].candidates) ==>
              (Breached(rs[a].candidates, policy, today, code) <==> Breached(rs[b].candidates, policy, today, code))
    decreases b
  {
    hide Apply, Accepted, Malformed, Breached, Settles, SettlesGovernance, OnlySettles, VerifyOn;
    if a < b {
      OnlySettlesUpTo(ops, rs, a, b);
      OtherFactsNeverMatter(e, first, day, ops, rs, a, b - 1, policy, today, code);
      assert rs[b] == Apply(rs[b - 1], ops[b - 1]);
      RunsKeepIdsDistinct(e, first, day, ops, rs, b - 1);
      assert Settles(rs[b - 1], ops[b - 1]) && !SettlesGovernance(rs[b - 1], ops[b - 1]);
      OtherFactDoesNotMatter(rs[b - 1], ops[b - 1], policy, today, code);
    }
  }

  lemma OtherFactDoesNotMatter(r: Report, op: Op, policy: PolicyContext, today: int, code: ResultCode)
    requires DistinctIds(r.candidates) && Settles(r, op) && !SettlesGovernance(r, op)
    ensures Malformed(r.candidates) <==> Malformed(Apply(r, op).candidates)
    ensures !Malformed(r.candidates) ==>
              (Breached(r.candidates, policy, today, code) <==> Breached(Apply(r, op).candidates, policy, today, code))
  {
    hide Apply, Malformed, Breached;
    if Accepted(r, op) {
      var k := PlaceOf(r, op);
      hide Accepted;
      OnlyGovernanceClaimsMatter(r.candidates, Apply(r, op).candidates, k, policy, today, code);
    }
  }

  /**
   An input for it: an intake whose only open point is a self-approval claim. Confirming the claim makes the report
   ready without another verification, the file passes, and yet the confirmed claim breaches a mandatory rule.
   */
  lemma ConfirmedSelfApprovalPasses(
    e: Extraction, policy: PolicyContext, today: int, r: Report, k: nat, actor: Actor, now: int, later: int)
    requires VerifyOn(Some(policy), today, e) == Success(r)
    requires r.reasons == [HumanConfirmationRequired] && r.findings == [] && r.unresolved == []
    requires forall i, j :: 0 <= i < j < |r.candidates| ==> r.candidates[i].id != r.candidates[j].id
    requires k < |r.candidates| && r.candidates[k].kind == SelfApprovalClaim
    requires forall i :: 0 <= i < |r.candidates| && i != k ==>
             !(r.candidates[i].confirmationRequired && r.candidates[i].status == Unresolved)
    requires actor.human && actor.mayConfirm
    ensures var confirmed := ConfirmFact(r, r.candidates[k].id, Confirm, actor, true);
      && confirmed.Success? && confirmed.value.ready && !Malformed(confirmed.value.candidates)
      && Breached(confirmed.value.candidates, policy, today, SeparationOfDutiesViolation)
      && Compile(confirmed.value, policy, Ready, now).Success?
      && Evaluate(Compile(confirmed.value, policy, Ready, now).value, later).Success?
      && Evaluate(Compile(confirmed.value, policy, Ready, now).value, later).value.1.outcome == G.Pass
  {
    hide VerifyOn, Compile, Evaluate, ConfirmFact, Malformed, Breached;
    assert !Malformed(r.candidates) by { VerifiedIsWellFormed(e, policy, today); }
    SelfApprovalReady(r, k, actor);
    SelfApprovalBreaches(r, k, actor, policy, today);
    TrustedPasses(ConfirmFact(r, r.candidates[k].id, Confirm, actor, true).value, policy, k, now, later);
  }

  lemma VerifiedIsWellFormed(e: Extraction, policy: PolicyContext, today: int)
    requires VerifyOn(Some(policy), today, e).Success?
    ensures !Malformed(VerifyOn(Some(policy), today, e).value.candidates)
  {
    BuiltIsVerified(VerifyCandidates(e.candidates, Some(policy)), Some(policy), today, e.requirements, e.conflicts);
    hide Malformed, Findings, VerifyCandidates, Reasons;
  }

  lemma TrustedPasses(r: Report, policy: PolicyContext, k: nat, now: int, later: int)
    requires r.ready && r.findings == [] && r.unresolved == [] && k < |r.candidates| && Trusted(r.candidates[k])
    requires forall i, j :: 0 <= i < j < |r.candidates| ==> r.candidates[i].id != r.candidates[j].id
    ensures Compile(r, policy, Ready, now).Success?
    ensures Evaluate(Compile(r, policy, Ready, now).value, later).Success?
    ensures Evaluate(Compile(r, policy, Ready, now).value, later).value.1.outcome == G.Pass
  {
    hide Compile, Evaluate;
    TrustedCompiles(r, policy, k, now);
    CompiledVerdict(r, policy, Ready, now, later);
  }

  lemma SelfApprovalBreaches(r: Report, k: nat, actor: Actor, policy: PolicyContext, today: int)
    requires k < |r.candidates| && r.candidates[k].kind == SelfApprovalClaim && !Malformed(r.candidates)
    requires forall i, j :: 0 <= i < j < |r.candidates| ==> r.candidates[i].id != r.candidates[j].id
    requires ConfirmFact(r, r.candidates[k].id, Confirm, actor, true).Success?
    ensures var cs := ConfirmFact(r, r.candidates[k].id, Confirm, actor, true).value.candidates;
      && !Malformed(cs) && Breached(cs, policy, today, SeparationOfDutiesViolation)
      && |cs| == |r.candidates| && Trusted(cs[k])
      && forall i, j :: 0 <= i < j < |cs| ==> cs[i].id != cs[j].id
  {
    ConfirmationRestands(r, k, Confirm, actor, true);
    var cs := ConfirmFact(r, r.candidates[k].id, Confirm, actor, true).value.candidates;
    hide ConfirmFact;
    FirstsRestand(r.candidates, cs, k);
    hide First;
    assert cs[k] in cs;
  }

  lemma SelfApprovalReady(r: Report, k: nat, actor: Actor)
    requires r.reasons == [HumanConfirmationRequired] && r.findings == [] && r.unresolved == []
    requires forall i, j :: 0 <= i < j < |r.candidates| ==> r.candidates[i].id != r.candidates[j].id
    requires k < |r.candidates|
    requires forall i :: 0 <= i < |r.candidates| && i != k ==>
             !(r.candidates[i].confirmationRequired && r.candidates[i].status == Unresolved)
    requires actor.human && actor.mayConfirm
    ensures var confirmed := ConfirmFact(r, r.candidates[k].id, Confirm, actor, true);
      && confirmed.Success? && confirmed.value.ready && confirmed.value.findings == []
      && confirmed.value.unresolved == []
  {
    assert HasFact(r.candidates, r.candidates[k].id);
    var cs := WithFact(r.candidates, UpdatedFact(Current(r.candidates, r.candidates[k].id), Confirm, actor));
    ConfirmationRestands(r, k, Confirm, actor, true);
    assert !exists c :: c in cs && c.confirmationRequired && c.status == Unresolved;
    assert Keep([HumanConfirmationRequired], false) == [];
  }

  lemma TrustedCompiles(r: Report, policy: PolicyContext, k: nat, now: int)
    requires r.ready && r.unresolved == [] && k < |r.candidates| && Trusted(r.candidates[k])
    requires forall i, j :: 0 <= i < j < |r.candidates| ==> r.candidates[i].id != r.candidates[j].id
    ensures Compile(r, policy, Ready, now).Success? && !SharedId(r.candidates)
  {
    TrustedOfMembers(r.candidates, r.candidates[k]);
  }

  // ---------------------------------------------------------------- two intakes

  function NumberFact(id: Id, kind: FactType, number: real, status: VerificationStatus): Candidate {
    Candidate(id, kind, Some(Value(false, Some(number), None, {}, {})), false, 10 * id, 10 * id + 5, status, false,
      None, false)
  }

  const SelfApproval: Candidate := Candidate(4, SelfApprovalClaim, None, false, 40, 45, Unresolved, true, None, false)

  /** An amount, a discount and a margin, and the claims beside them. */
  function QuoteFacts(status: VerificationStatus, claims: seq<Candidate>): seq<Candidate> {
    [NumberFact(1, Amount, 100.0, status), NumberFact(2, DiscountPercent, 5.0, status),
      NumberFact(3, MarginPercent, 20.0, status)]
    + claims
  }

  function Quote(claims: seq<Candidate>): Extraction {
    Extraction(QuoteFacts(Unresolved, claims), false, [])
  }

  function QuotePolicy(today: int): PolicyContext {
    PolicyContext(7, 1, today, 10.0, 10.0, 12, 1000.0, 30, 1)
  }

  lemma {:induction false} FirstIsAt(cs: seq<Candidate>, kind: FactType, k: nat)
    requires k < |cs| && cs[k].kind == kind && forall i :: 0 <= i < k ==> cs[i].kind != kind
    ensures First(cs, kind) == Some(cs[k])
  {
    if k > 0 {
      FirstIsAt(cs[1..], kind, k - 1);
    }
  }

  lemma {:induction false} FirstIsNone(cs: seq<Candidate>, kind: FactType)
    requires forall i :: 0 <= i < |cs| ==> cs[i].kind != kind
    ensures First(cs, kind) == None
  {
    if cs != [] {
      FirstIsNone(cs[1..], kind);
    }
  }

  lemma QuoteFirsts(claims: seq<Candidate>)
    requires claims == [] || claims == [SelfApproval]
    ensures var cs := QuoteFacts(Verified, claims);
      && First(cs, Amount) == Some(cs[0]) && First(cs, DiscountPercent) == Some(cs[1])
      && First(cs, MarginPercent) == Some(cs[2])
      && First(cs, DurationMonths) == None && First(cs, EvidenceDate) == None && First(cs, UntrustedInstruction) == None
  {
    var cs := QuoteFacts(Verified, claims);
    hide First;
    FirstIsAt(cs, Amount, 0);
    FirstIsAt(cs, DiscountPercent, 1);
    FirstIsAt(cs, MarginPercent, 2);
    FirstIsNone(cs, DurationMonths);
    FirstIsNone(cs, EvidenceDate);
    FirstIsNone(cs, UntrustedInstruction);
  }

  lemma QuoteBreachesNothing(claims: seq<Candidate>, today: int)
    requires claims == [] || claims == [SelfApproval]
    ensures NoneBreached(QuoteFacts(Verified, claims), QuotePolicy(today), today)
  {
    QuoteTerms(claims, today);
    hide QuoteFacts, QuotePolicy, Malformed, TooLong, NeedsApproval, First;
  }

  lemma QuoteTerms(claims: seq<Candidate>, today: int)
    requires claims == [] || claims == [SelfApproval]
    ensures var cs, policy := QuoteFacts(Verified, claims), QuotePolicy(today);
      && !Malformed(cs) && !TooLong(cs, policy) && !NeedsApproval(cs, policy)
      && (forall code :: code !in CONDUCT ==> !Breached(cs, policy, today, code))
      && (forall c :: c in cs ==> c.kind != PolicyClaim && c.status != HumanConfirmed)
  {
    QuoteFirsts(claims);
    hide First;
    var cs := QuoteFacts(Verified, claims);
    forall c | c in cs ensures c.kind != PolicyClaim && c.status != HumanConfirmed {
      assert c == cs[0] || c == cs[1] || c == cs[2] || c == SelfApproval;
    }
  }

  lemma QuoteIsVerified(claims: seq<Candidate>, policy: Option<PolicyContext>)
    requires claims == [] || claims == [SelfApproval]
    ensures VerifyCandidates(QuoteFacts(Unresolved, claims), policy) == QuoteFacts(Verified, claims)
  {
    var cs, r := QuoteFacts(Unresolved, claims), VerifyCandidates(QuoteFacts(Unresolved, claims), policy);
    forall i | 0 <= i < |cs| ensures r[i] == QuoteFacts(Verified, claims)[i] {
      assert QuoteFacts(Verified, claims)[i] == VerifyCandidate(cs[i]);
      PlainIsOnlyChecked(cs, policy, i);
    }
    hide QuoteFacts, VerifyCandidates;
  }

  lemma PlainIsOnlyChecked(cs: seq<Candidate>, policy: Option<PolicyContext>, i: nat)
    requires i < |cs| && forall k :: 0 <= k < |cs| ==> cs[k].kind != UntrustedInstruction && cs[k].kind != PolicyClaim
    ensures VerifyCandidates(cs, policy)[i] == VerifyCandidate(cs[i])
  {
  }

  lemma QuoteReasons(claims: seq<Candidate>, policy: PolicyContext)
    requires claims == [] || claims == [SelfApproval]
    ensures Reasons(QuoteFacts(Verified, claims), Some(policy), [], false) ==
            if claims == [] then [] else [HumanConfirmationRequired]
  {
    var cs := QuoteFacts(Verified, claims);
    assert cs[0].kind == Amount && cs[1].kind == DiscountPercent && cs[2].kind == MarginPercent;
    assert HasTrusted(cs, Amount) && HasTrusted(cs, DiscountPercent) && HasTrusted(cs, MarginPercent);
    assert claims != [] ==> SelfApproval in cs;
  }

  lemma QuoteReport(claims: seq<Candidate>, today: int)
    requires claims == [] || claims == [SelfApproval]
    ensures VerifyOn(Some(QuotePolicy(today)), today, Quote(claims)) == Success(
              Report(QuoteFacts(Verified, claims), [], [], claims == [],
                if claims == [] then [] else [HumanConfirmationRequired]))
  {
    QuoteIsVerified(claims, Some(QuotePolicy(today)));
    QuoteReasons(claims, QuotePolicy(today));
    QuoteBreachesNothing(claims, today);
    FindingsMean(QuoteFacts(Verified, claims), QuotePolicy(today), today);
    hide QuoteFacts, QuotePolicy, Reasons, Findings, Malformed, Breached, VerifyCandidates;
  }

  /**
   Three facts and a self-approval claim: verified, confirmed by any person who may, the file passes with a mandatory
   rule breached.
   */
  lemma SelfApprovedQuotePasses(today: int, actor: Actor, now: int, later: int)
    requires actor.human && actor.mayConfirm
    ensures var policy := QuotePolicy(today);
      var verified := VerifyOn(Some(QuotePolicy(today)), today, Quote([SelfApproval]));
      && verified.Success? && !verified.value.ready
      && var confirmed := ConfirmFact(verified.value, SelfApproval.id, Confirm, actor, true);
      && confirmed.Success? && confirmed.value.ready && !Malformed(confirmed.value.candidates)
      && Breached(confirmed.value.candidates, policy, today, SeparationOfDutiesViolation)
      && Compile(confirmed.value, policy, Ready, now).Success?
      && Evaluate(Compile(confirmed.value, policy, Ready, now).value, later).Success?
      && Evaluate(Compile(confirmed.value, policy, Ready, now).value, later).value.1.outcome == G.Pass
  {
    hide VerifyOn, ConfirmFact, Compile, Evaluate, Malformed, Breached;
    QuoteReport([SelfApproval], today);
    var r := VerifyOn(Some(QuotePolicy(today)), today, Quote([SelfApproval])).value;
    ConfirmedSelfApprovalPasses(Quote([SelfApproval]), QuotePolicy(today), today, r, 3, actor, now, later);
  }

  /** The three facts alone: rejecting the amount leaves the report ready without one. */
  lemma AmountlessQuoteStaysReady(today: int, actor: Actor)
    requires actor.human && actor.mayConfirm
    ensures var verified := VerifyOn(Some(QuotePolicy(today)), today, Quote([]));
      && verified.Success? && verified.value.ready
      && var rejected := ConfirmFact(verified.value, 1, Reject, actor, true);
      && rejected.Success? && rejected.value.ready && !HasTrusted(rejected.value.candidates, Amount)
  {
    hide VerifyOn, ConfirmFact, HasTrusted;
    QuoteReport([], today);
    var r := VerifyOn(Some(QuotePolicy(today)), today, Quote([])).value;
    assert r.candidates[0].id == 1;
    RejectedAmountStaysReady(r, 0, actor);
  }
}
