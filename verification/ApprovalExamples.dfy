/** Runs of the approval engine that end otherwise than its workflows suggest. */
module ApprovalExamples {
  import opened Wrappers
  import opened Approval
  import opened ApprovalSafety
  import opened ApprovalRuns
  import opened ApprovalVisits
  import opened ApprovalVoters
  import opened ApprovalLoops

  /** The first step of a workflow is the matching one if nothing comes before it and it has no conditions. */
  lemma FirstStepMatches(wf: Workflow, attributes: map<string, string>, compare: (Condition, string) -> bool)
    requires wf.steps != [] && ConditionsMatch(wf.steps[0], attributes, compare)
    requires forall s :: s in wf.steps ==> wf.steps[0].order <= s.order
    ensures MatchingStep(wf, attributes, compare) == Some(wf.steps[0])
  {
    hide MatchingStep, ConditionsMatch;
    RoutingIsFirstMatch(wf, attributes, compare);
  }

  // ---------- a step that times out again and again ----------

  const RISK := Condition("risk_level", "eq", "high")

  /** The built-in workflow: its only step escalates, and there is no escalation step. */
  const HIGH_RISK := Workflow("high-risk-task",
    [Step("supervisor-approval", Single, ["supervisor"], Some(60), Some("manager"), [RISK], 1)], true)

  function SweptAtAll(r: Request, wf: Workflow, times: seq<int>): Request
    decreases |times|
  {
    if times == [] then r else SweptAtAll(TimedOut(r, Some(wf), times[0]), wf, times[1..])
  }

  /** No number of sweeps moves such a request on, and once its hour has passed it stays overdue. */
  lemma {:induction false} HighRiskNeverEscalates(compare: (Condition, string) -> bool, times: seq<int>, late: int)
    requires compare(RISK, "high") && late > 60
    ensures Submitted(HIGH_RISK, map["risk_level" := "high"], compare, 0).Some?
    ensures var start := Submitted(HIGH_RISK, map["risk_level" := "high"], compare, 0).value;
            var r := SweptAtAll(start, HIGH_RISK, times);
            r.status == Pending && r.current == Some("supervisor-approval") && Overdue(r, Some(HIGH_RISK), late)
  {
    FirstStepMatches(HIGH_RISK, map["risk_level" := "high"], compare);
    FindStepFinds(HIGH_RISK, HIGH_RISK.steps[0]);
    SweepsDoNotMove(Submitted(HIGH_RISK, map["risk_level" := "high"], compare, 0).value, times, late);
  }

  lemma {:induction false} SweepsDoNotMove(r: Request, times: seq<int>, late: int)
    requires r.status == Pending && r.current == Some("supervisor-approval") && Overdue(r, Some(HIGH_RISK), late)
    ensures var after := SweptAtAll(r, HIGH_RISK, times);
            after.status == Pending && after.current == r.current && Overdue(after, Some(HIGH_RISK), late)
    decreases |times|
  {
    if times != [] {
      SweepsDoNotMove(TimedOut(r, Some(HIGH_RISK), times[0]), times[1..], late);
    }
  }

  // ---------- a step that is jumped over ----------

  const FIRST := Step("a", Single, ["x"], Some(60), Some("boss"), [], 1)
  const SECOND := Step("b", And, ["y", "z"], None, None, [], 2)
  const STANDIN := Step("a-escalated", Single, ["boss"], None, None, [], 3)

  const JUMPING := Workflow("jumping", [FIRST, SECOND, STANDIN], true)

  /** The first step times out, and one approval of its escalation step ends the request without the second. */
  lemma EscalationSkipsAStep(compare: (Condition, string) -> bool)
    ensures WellFormed(JUMPING) && OrdersDistinctFrom(JUMPING, 1)
    ensures Submitted(JUMPING, map[], compare, 0).Some?
    ensures var start := Submitted(JUMPING, map[], compare, 0).value;
            var r := ApprovedBy(TimedOut(start, Some(JUMPING), 61), JUMPING, ["boss"], 62);
            Reachable(JUMPING, r, compare) && r.status == Approved && SECOND.id !in r.statuses
  {
    hide Reachable, MatchingStep, FindStep, NextStep;
    FirstStepMatches(JUMPING, map[], compare);
    FindStepFinds(JUMPING, FIRST);
    FindStepFinds(JUMPING, STANDIN);
    assert EscalationId(FIRST.id) == STANDIN.id;
    var start := Submitted(JUMPING, map[], compare, 0).value;
    var escalated := TimedOut(start, Some(JUMPING), 61);
    SubmittedIsReachable(JUMPING, map[], compare, 0);
    TimedOutIsReachable(JUMPING, start, compare, 61);
    ApprovedByIsReachable(JUMPING, escalated, compare, ["boss"], 62);
    assert escalated.statuses.Keys == {FIRST.id, STANDIN.id};
    assert NextStep(JUMPING, STANDIN.order).None?;
    var r := Decided(escalated, Some(JUMPING), "boss", Approve, 62).value.0;
    assert ApprovedBy(r, JUMPING, [], 62) == r;
  }

  // ---------- a step that shares its order ----------

  const LEGAL := Step("legal", Single, ["x"], None, None, [], 1)
  const FINANCE := Step("finance", Single, ["y"], None, None, [], 1)

  const TIED := Workflow("tied", [LEGAL, FINANCE], true)

  /** Of two steps with one order the second is never started. */
  lemma TiedStepIsNeverStarted(compare: (Condition, string) -> bool)
    ensures WellFormed(TIED) && Submitted(TIED, map[], compare, 0).Some?
    ensures var r := ApprovedBy(Submitted(TIED, map[], compare, 0).value, TIED, ["x"], 0);
            Reachable(TIED, r, compare) && r.status == Approved && FINANCE.id !in r.statuses
  {
    hide Reachable, MatchingStep, FindStep, NextStep;
    FirstStepMatches(TIED, map[], compare);
    FindStepFinds(TIED, LEGAL);
    var start := Submitted(TIED, map[], compare, 0).value;
    SubmittedIsReachable(TIED, map[], compare, 0);
    ApprovedByIsReachable(TIED, start, compare, ["x"], 0);
    assert NextStep(TIED, LEGAL.order).None?;
    var r := Decided(start, Some(TIED), "x", Approve, 0).value.0;
    assert ApprovedBy(r, TIED, [], 0) == r;
  }

  // ---------- an AND step approved by a stranger ----------

  const BOTH := Step("both", And, ["y", "z"], None, None, [], 1)

  const JOINT := Workflow("joint", [BOTH], true)

  /** Somebody not listed approves twice, and the request is approved without either listed approver. */
  lemma StrangerApprovesForBoth(compare: (Condition, string) -> bool)
    ensures WellFormed(JOINT) && Submitted(JOINT, map[], compare, 0).Some?
    ensures var r := ApprovedBy(Submitted(JOINT, map[], compare, 0).value, JOINT, ["eve", "eve"], 0);
            && Reachable(JOINT, r, compare) && r.status == Approved
            && "y" !in Voters(r.decisions, BOTH.id) && "z" !in Voters(r.decisions, BOTH.id)
  {
    hide Reachable, MatchingStep, FindStep;
    FirstStepMatches(JOINT, map[], compare);
    FindStepFinds(JOINT, BOTH);
    SubmittedIsReachable(JOINT, map[], compare, 0);
    assert NeedOfAll(JOINT.steps) == Need(BOTH) + NeedOfAll([]) == 2;
    var people := seq(NeedOfAll(JOINT.steps), _ => "eve");
    assert people == ["eve", "eve"];
    OnePersonCanApproveAlone(JOINT, Submitted(JOINT, map[], compare, 0).value, compare, "eve", BOTH.id, 0);
    ApprovedByIsReachable(JOINT, Submitted(JOINT, map[], compare, 0).value, compare, people, 0);
  }

  // ---------- an escalation step that comes first ----------

  const BACKUP := Step("a-escalated", Single, ["boss"], None, None, [], 1)
  const REGULAR := Step("a", Single, ["x"], Some(60), Some("boss"), [], 2)

  const CIRCULAR := Workflow("circular", [BACKUP, REGULAR], true)

  /** Approved by the boss, timed out, approved by the boss: no number of approvals is the most there can be. */
  lemma CircularNeverEnds(compare: (Condition, string) -> bool, n: nat) returns (moves: seq<Move>)
    ensures DistinctIds(CIRCULAR.steps) && Submitted(CIRCULAR, map[], compare, 0).Some?
    ensures var start := Submitted(CIRCULAR, map[], compare, 0).value;
            Approvals(Play(start, CIRCULAR, moves).decisions) > n
  {
    hide MatchingStep, FindStep, NextStep;
    FirstStepMatches(CIRCULAR, map[], compare);
    FindStepFinds(CIRCULAR, BACKUP);
    assert EscalationId(REGULAR.id) == BACKUP.id;
    var round := [BACKUP, REGULAR, BACKUP];
    assert ByApproval(CIRCULAR, BACKUP, REGULAR) && ByTimeout(CIRCULAR, REGULAR, BACKUP);
    assert Trail(CIRCULAR, round) && round[0] == round[2];
    moves := WayBackIsUnbounded(CIRCULAR, BACKUP, Submitted(CIRCULAR, map[], compare, 0).value, n);
  }

  // ---------- an AND step without approvers ----------

  const NOBODY := Step("nobody", And, [], None, None, [], 1)

  const VACANT := Workflow("vacant", [NOBODY], true)

  /** A vote to escalate approves the request, which no one has approved. */
  lemma EscalateVoteApproves(compare: (Condition, string) -> bool, person: string)
    ensures WellFormed(VACANT) && Submitted(VACANT, map[], compare, 0).Some?
    ensures var decided := Decided(Submitted(VACANT, map[], compare, 0).value, Some(VACANT), person, Escalate, 0);
            && decided.Ok? && Reachable(VACANT, decided.value.0, compare)
            && decided.value.0.status == Approved && Approvals(decided.value.0.decisions) == 0
  {
    hide Reachable, MatchingStep, FindStep, NextStep;
    FirstStepMatches(VACANT, map[], compare);
    FindStepFinds(VACANT, NOBODY);
    SubmittedIsReachable(VACANT, map[], compare, 0);
    assert NextStep(VACANT, NOBODY.order).None?;
    BallotsAppend([], Decision(NOBODY.id, person, Escalate));
    assert [] + [Decision(NOBODY.id, person, Escalate)] == [Decision(NOBODY.id, person, Escalate)];
    DecidedIsReachable(VACANT, Submitted(VACANT, map[], compare, 0).value, compare, person, Escalate, 0);
  }
}
