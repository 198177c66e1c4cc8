/** What one vote does to a request, whatever was voted before. */
module ApprovalVerdicts {
  import opened Wrappers
  import opened Approval
  import opened ApprovalSafety

  /** The vote ends the step with a rejection: a rejection always does, an escalation everywhere but at AND steps. */
  predicate Rejects(step: Step, verdict: Verdict) {
    verdict == Reject || (verdict == Escalate && step.nodeType != And)
  }

  /** The vote completes the step: alone at other steps, at an AND step as the last approval it waits for. */
  predicate Completes(step: Step, ds: seq<Decision>, verdict: Verdict) {
    match verdict
    case Approve => step.nodeType == And ==> Votes(ds, step.id, Approve) + 1 >= |step.approvers|
    case Reject => false
    case Escalate => step.nodeType == And && step.approvers == []
  }

  lemma JudgedByVote(wf: Workflow, m: Step, r: Request, d: Decision)
    requires Inv(wf, m, r) && r.current == Some(d.stepId)
    ensures var step := At(wf, d.stepId);
            var judged := Judged(step, r.decisions + [d], d.verdict, StatusOf(r, d.stepId));
            && (judged == Rejected <==> Rejects(step, d.verdict))
            && (judged == Approved <==> Completes(step, r.decisions, d.verdict))
  {
    hide FindStep, Votes, LeftOk, StatusOk, CoverageOk, BudgetOk;
    BallotsAppend(r.decisions, d);
  }

  /**
   An accepted vote is recorded. It rejects the request exactly if it is a rejection, or an escalation at a step
   other than an AND step. It moves or finishes the request exactly if it completes the step. Any other vote does
   nothing but stand in the record.
   */
  lemma VoteDecides(wf: Workflow, m: Step, r: Request, approver: string, verdict: Verdict, now: int)
    requires DistinctIds(wf.steps) && Inv(wf, m, r)
    requires Decided(r, Some(wf), approver, verdict, now).Ok?
    ensures r.current.Some?
    ensures var step := At(wf, r.current.value);
            var next := NextStep(wf, step.order);
            var d := Decision(step.id, approver, verdict);
            var (after, answer) := Decided(r, Some(wf), approver, verdict, now).value;
            && after.decisions == r.decisions + [d]
            && (after.status == Rejected <==> Rejects(step, verdict))
            && (after.status == Approved <==> Completes(step, r.decisions, verdict) && next.None?)
            && (after.current != r.current && after.status == Pending
                <==> Completes(step, r.decisions, verdict) && next.Some?)
            && (after.current.Some? && after.current != r.current ==> next == FindStep(wf, after.current.value))
            && (Rejects(step, verdict) ==> after.statuses == r.statuses[step.id := Rejected])
            && (Completes(step, r.decisions, verdict) ==>
                  after.statuses
                  == match next
                     case None => r.statuses[step.id := Approved]
                     case Some(n) => r.statuses[step.id := Approved][n.id := Pending])
            && (!Rejects(step, verdict) && !Completes(step, r.decisions, verdict) ==>
                  after == r.(decisions := r.decisions + [d]) && answer == Response(None, false))
  {
    hide FindStep, NextStep, Votes, Judged, LeftOk, CoverageOk, BudgetOk, Waiting, Rejects, Completes;
    PendingIsOpen(wf, m, r);
    var step := At(wf, r.current.value);
    JudgedByVote(wf, m, r, Decision(step.id, approver, verdict));
    if NextStep(wf, step.order).Some? {
      FindStepFinds(wf, NextStep(wf, step.order).value);
    }
  }

  /** At an AND step with approvers a vote to escalate counts for nothing. */
  lemma EscalationAtAndStepWaits(wf: Workflow, m: Step, r: Request, approver: string, now: int)
    requires DistinctIds(wf.steps) && Inv(wf, m, r) && r.status == Pending
    requires r.current.Some? && Known(wf, r.current.value)
    requires At(wf, r.current.value).nodeType == And && At(wf, r.current.value).approvers != []
    ensures Decided(r, Some(wf), approver, Escalate, now)
         == Ok((r.(decisions := r.decisions + [Decision(r.current.value, approver, Escalate)]), Response(None, false)))
  {
    hide Decided, Inv;
    assert Decided(r, Some(wf), approver, Escalate, now).Ok? by { OpenTakesVotes(wf, r, approver, now); }
    VoteDecides(wf, m, r, approver, Escalate, now);
    var step := At(wf, r.current.value);
    assert step.id == r.current.value && !Rejects(step, Escalate) && !Completes(step, r.decisions, Escalate);
    var outcome := Decided(r, Some(wf), approver, Escalate, now).value;
    assert outcome == (outcome.0, outcome.1);
  }

  lemma OpenTakesVotes(wf: Workflow, r: Request, approver: string, now: int)
    requires r.current.Some? && Known(wf, r.current.value)
    ensures Decided(r, Some(wf), approver, Escalate, now).Ok?
  {
    hide FindStep, NextStep, Judged;
  }

  /** Moving on from a step nobody decided marks it skipped, never approved. */
  lemma UndecidedStepIsSkipped(r: Request, wf: Workflow, now: int)
    requires r.current.Some? && StatusOf(r, r.current.value) == Pending
    ensures var (after, next) := CompleteStep(r, wf, now);
            && (next != r.current ==>
                  r.current.value in after.statuses && after.statuses[r.current.value] == Skipped)
            && (next.None? ==> after.current == r.current)
  {
    hide FindStep, NextStep;
  }

  /** A step the workflow no longer has counts as one of order 0. */
  lemma ForgottenStepHasOrderZero(r: Request, wf: Workflow, now: int)
    requires r.current.Some? && FindStep(wf, r.current.value).None?
    ensures match CompleteStep(r, wf, now).1
            case None => forall s :: s in wf.steps ==> s.order <= 0
            case Some(id) => exists n :: n in wf.steps && n.id == id && n.order > 0
                                         && forall s :: s in wf.steps && s.order > 0 ==> n.order <= s.order
  {
    hide FindStep, NextStep;
  }
}
