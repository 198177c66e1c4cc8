/**
 What every run of the approval engine keeps: one invariant of a request against its workflow,
 preserved by submission, decision and timeout, and what follows from it.
 */
module ApprovalSafety {
  import opened Wrappers
  import opened Sorting
  import opened Approval

  ghost predicate DistinctIds(steps: seq<Step>) {
    forall i, j :: 0 <= i < j < |steps| ==> steps[i].id != steps[j].id
  }

  /** An escalation step comes later than the step it stands in for. */
  ghost predicate EscalatesForward(steps: seq<Step>) {
    forall s, e :: s in steps && e in steps && e.id == EscalationId(s.id) ==> e.order > s.order
  }

  ghost predicate WellFormed(wf: Workflow) {
    DistinctIds(wf.steps) && EscalatesForward(wf.steps)
  }

  ghost predicate Known(wf: Workflow, id: string) {
    FindStep(wf, id).Some?
  }

  ghost function At(wf: Workflow, id: string): Step
    requires Known(wf, id)
  {
    FindStep(wf, id).value
  }

  lemma {:induction false} FirstById(steps: seq<Step>, s: Step)
    requires s in steps
    requires DistinctIds(steps)
    ensures FirstWhere(steps, (t: Step) => t.id == s.id) == Some(s)
  {
    if steps[0] != s {
      FirstById(steps[1..], s);
    }
  }

  lemma FindStepFinds(wf: Workflow, s: Step)
    requires DistinctIds(wf.steps) && s in wf.steps
    ensures FindStep(wf, s.id) == Some(s)
  {
    FirstById(wf.steps, s);
  }

  // ---------- votes ----------

  ghost function Ballots(ds: seq<Decision>, id: string): nat {
    Votes(ds, id, Approve) + Votes(ds, id, Reject) + Votes(ds, id, Escalate)
  }

  ghost function Approvals(ds: seq<Decision>): nat {
    if ds == [] then 0 else (if ds[0].verdict == Approve then 1 else 0) + Approvals(ds[1..])
  }

  lemma {:induction false} VotesAppend(ds: seq<Decision>, d: Decision, id: string, v: Verdict)
    ensures Votes(ds + [d], id, v) == Votes(ds, id, v) + (if d.stepId == id && d.verdict == v then 1 else 0)
  {
    if ds == [] {
      assert ds + [d] == [d];
    } else {
      VotesAppend(ds[1..], d, id, v);
      assert (ds + [d])[1..] == ds[1..] + [d];
    }
  }

  lemma BallotsAppend(ds: seq<Decision>, d: Decision)
    ensures forall id, v :: Votes(ds + [d], id, v)
                         == Votes(ds, id, v) + (if d.stepId == id && d.verdict == v then 1 else 0)
  {
    forall id, v
      ensures Votes(ds + [d], id, v) == Votes(ds, id, v) + (if d.stepId == id && d.verdict == v then 1 else 0)
    {
      VotesAppend(ds, d, id, v);
    }
  }

  lemma {:induction false} ApprovalsAppend(ds: seq<Decision>, d: Decision)
    ensures Approvals(ds + [d]) == Approvals(ds) + (if d.verdict == Approve then 1 else 0)
  {
    if ds == [] {
      assert ds + [d] == [d];
    } else {
      ApprovalsAppend(ds[1..], d);
      assert (ds + [d])[1..] == ds[1..] + [d];
    }
  }

  lemma {:induction false} NoVotes(ds: seq<Decision>, id: string)
    requires forall i :: 0 <= i < |ds| ==> ds[i].stepId != id
    ensures Ballots(ds, id) == 0
  {
    if ds != [] {
      NoVotes(ds[1..], id);
    }
  }

  // ---------- how many approvals a request still needs ----------

  function Need(step: Step): nat {
    if step.nodeType == And && |step.approvers| > 1 then |step.approvers| else 1
  }

  function NeedAbove(steps: seq<Step>, order: int): nat {
    if steps == [] then 0 else (if steps[0].order > order then Need(steps[0]) else 0) + NeedAbove(steps[1..], order)
  }

  function NeedOfAll(steps: seq<Step>): nat {
    if steps == [] then 0 else Need(steps[0]) + NeedOfAll(steps[1..])
  }

  /** Approvals the open step lacks, plus those every later step may ask for. */
  ghost function Remaining(wf: Workflow, r: Request): int {
    if r.current.None? || !Known(wf, r.current.value) then 0 else
      var step := At(wf, r.current.value);
      Need(step) - Votes(r.decisions, step.id, Approve) + NeedAbove(wf.steps, step.order)
  }

  lemma {:induction false} NeedAboveStep(steps: seq<Step>, s: Step, order: int)
    requires s in steps && s.order > order
    ensures NeedAbove(steps, s.order) + Need(s) <= NeedAbove(steps, order)
  {
    if steps[0] == s {
      NeedAboveMonotone(steps[1..], order, s.order);
    } else {
      NeedAboveStep(steps[1..], s, order);
    }
  }

  lemma {:induction false} NeedAboveMonotone(steps: seq<Step>, low: int, high: int)
    requires low <= high
    ensures NeedAbove(steps, high) <= NeedAbove(steps, low) <= NeedOfAll(steps)
  {
    if steps != [] {
      NeedAboveMonotone(steps[1..], low, high);
    }
  }

  lemma {:induction false} NeedFromBounded(steps: seq<Step>, s: Step)
    requires s in steps
    ensures Need(s) + NeedAbove(steps, s.order) <= NeedOfAll(steps)
  {
    if steps[0] == s {
      NeedAboveMonotone(steps[1..], s.order, s.order);
    } else {
      NeedFromBounded(steps[1..], s);
    }
  }

  // ---------- the invariant ----------

  /** What the record holds once a step was approved. */
  ghost predicate Evidence(step: Step, ds: seq<Decision>) {
    match step.nodeType
    case And =>
      && Votes(ds, step.id, Reject) == 0
      && (if |step.approvers| > 0 then Votes(ds, step.id, Approve) == |step.approvers| else Ballots(ds, step.id) == 1)
    case _ => Votes(ds, step.id, Approve) == 1 == Ballots(ds, step.id)
  }

  /** What it holds while the step waits. */
  ghost predicate Waiting(step: Step, ds: seq<Decision>) {
    if step.nodeType == And && |step.approvers| > 0
    then Votes(ds, step.id, Reject) == 0 && Votes(ds, step.id, Approve) < |step.approvers|
    else Ballots(ds, step.id) == 0
  }

  /** Every visited step is known, lies at or after the first one `m`, and no two share an order. */
  ghost predicate VisitsOk(wf: Workflow, m: Step, r: Request) {
    && m.id in r.statuses
    && (forall id :: id in r.statuses ==> Known(wf, id) && At(wf, id).order >= m.order)
    && (forall a, b :: a in r.statuses && b in r.statuses && a != b ==> At(wf, a).order != At(wf, b).order)
    && (forall i :: 0 <= i < |r.decisions| ==> r.decisions[i].stepId in r.statuses)
  }

  ghost predicate OpenOk(wf: Workflow, r: Request)
    requires forall id :: id in r.statuses ==> Known(wf, id)
  {
    r.current.Some? ==>
      var c := r.current.value;
      && c in r.statuses
      && (forall id :: id in r.statuses ==> At(wf, id).order <= At(wf, c).order)
      && Waiting(At(wf, c), r.decisions)
      && (r.statuses[c] == Pending
          || (r.statuses[c] == Escalated && Escalates(At(wf, c)) && !Known(wf, EscalationId(c))))
  }

  /** How a visited step that is no longer current was left. */
  ghost predicate Left(wf: Workflow, r: Request, id: string)
    requires id in r.statuses && Known(wf, id)
  {
    match r.statuses[id]
    case Approved => Evidence(At(wf, id), r.decisions)
    case Escalated => if Escalates(At(wf, id)) then EscalationId(id) in r.statuses else r.status == Escalated
    case Rejected => r.status == Rejected
    case _ => false
  }

  ghost predicate LeftOk(wf: Workflow, r: Request)
    requires forall id :: id in r.statuses ==> Known(wf, id)
  {
    forall id :: id in r.statuses && r.current != Some(id) ==> Left(wf, r, id)
  }

  /** No step of the workflow comes after `step`. */
  ghost predicate IsLast(wf: Workflow, step: Step) {
    forall s :: s in wf.steps ==> s.order <= step.order
  }

  ghost predicate StatusOk(wf: Workflow, r: Request)
    requires forall id :: id in r.statuses ==> Known(wf, id)
  {
    && (r.status == Pending <==> r.current.Some?)
    && r.status != Cancelled && r.status != Skipped
    && (r.status == Approved ==>
          exists id :: id in r.statuses && r.statuses[id] == Approved && IsLast(wf, At(wf, id)))
  }

  ghost predicate Covered(wf: Workflow, visited: set<string>, order: int)
    requires forall id :: id in visited ==> Known(wf, id)
  {
    exists id :: id in visited && At(wf, id).order == order
  }

  /** The timeout of the visited step `id` led to its escalation step and passed over `order`. */
  ghost predicate JumpsOver(wf: Workflow, statuses: map<string, Status>, id: string, order: int)
    requires id in statuses && forall k :: k in statuses ==> Known(wf, k)
  {
    && statuses[id] == Escalated && EscalationId(id) in statuses
    && At(wf, id).order < order < At(wf, EscalationId(id)).order
  }

  ghost predicate Jumped(wf: Workflow, statuses: map<string, Status>, order: int)
    requires forall k :: k in statuses ==> Known(wf, k)
  {
    exists id :: id in statuses && JumpsOver(wf, statuses, id, order)
  }

  /** A step of this order was visited, unless a timeout jumped over it. */
  ghost predicate OrderOk(wf: Workflow, statuses: map<string, Status>, order: int)
    requires forall k :: k in statuses ==> Known(wf, k)
  {
    Covered(wf, statuses.Keys, order) <==> !Jumped(wf, statuses, order)
  }

  /** From the first step's order up to the current one's, what was not visited was jumped over. */
  ghost predicate CoverageOk(wf: Workflow, m: Step, r: Request)
    requires forall id :: id in r.statuses ==> Known(wf, id)
  {
    r.status == Pending || r.status == Approved ==>
      forall s {:trigger OrderOk(wf, r.statuses, s.order)} :: s in wf.steps && s.order >= m.order
                  && (r.current.Some? && Known(wf, r.current.value) ==> s.order <= At(wf, r.current.value).order)
        ==> OrderOk(wf, r.statuses, s.order)
  }

  ghost predicate BudgetOk(wf: Workflow, m: Step, r: Request) {
    Approvals(r.decisions) + Remaining(wf, r) <= Need(m) + NeedAbove(wf.steps, m.order)
  }

  /** The request invariant; `m` is the step the request started at. */
  ghost predicate Inv(wf: Workflow, m: Step, r: Request) {
    && r.workflowId == wf.id
    && m in wf.steps
    && VisitsOk(wf, m, r)
    && OpenOk(wf, r)
    && LeftOk(wf, r)
    && StatusOk(wf, r)
    && CoverageOk(wf, m, r)
    && BudgetOk(wf, m, r)
  }

  lemma SubmitEstablishes(wf: Workflow, attributes: map<string, string>, compare: (Condition, string) -> bool, now: int)
    requires DistinctIds(wf.steps)
    requires Submitted(wf, attributes, compare, now).Some?
    ensures MatchingStep(wf, attributes, compare).Some?
    ensures Inv(wf, MatchingStep(wf, attributes, compare).value, Submitted(wf, attributes, compare, now).value)
  {
    var m := MatchingStep(wf, attributes, compare).value;
    var r := Submitted(wf, attributes, compare, now).value;
    FindStepFinds(wf, m);
    assert r.statuses == map[m.id := Pending];
    forall s | s in wf.steps && s.order == m.order ensures OrderOk(wf, r.statuses, s.order) {
      assert m.id in r.statuses.Keys;
    }
  }

  // ---------- one transition at a time ----------

  /** A step left while the request was pending stays properly left when others are recorded. */
  lemma OthersStayLeft(wf: Workflow, r: Request, d: Decision, r': Request)
    requires forall id :: id in r'.statuses ==> Known(wf, id)
    requires r.status == Pending && r.current == Some(d.stepId)
    requires r.statuses.Keys <= r'.statuses.Keys
    requires LeftOk(wf, r)
    requires r'.decisions == r.decisions + [d]
    requires forall id :: id in r.statuses && id != d.stepId ==> r'.statuses[id] == r.statuses[id]
    ensures forall id :: id in r.statuses && id != d.stepId ==> Left(wf, r', id)
  {
    hide FindStep, Votes;
    BallotsAppend(r.decisions, d);
    forall id | id in r.statuses && id != d.stepId ensures Left(wf, r', id) {
      assert Left(wf, r, id);
    }
  }

  lemma VoteKeepsWaiting(wf: Workflow, m: Step, r: Request, d: Decision)
    requires Inv(wf, m, r) && r.current == Some(d.stepId)
    requires Waiting(At(wf, d.stepId), r.decisions + [d])
    ensures Inv(wf, m, r.(decisions := r.decisions + [d]))
  {
    hide FindStep, Votes, Left, Covered;
    var r' := r.(decisions := r.decisions + [d]);
    assert LeftOk(wf, r') by {
      OthersStayLeft(wf, r, d, r');
    }
    assert BudgetOk(wf, m, r') by {
      hide LeftOk, StatusOk, CoverageOk;
      BallotsAppend(r.decisions, d);
      ApprovalsAppend(r.decisions, d);
    }
  }

  /** The request with its current step given its final status, before the engine moves on. */
  ghost function Marked(r: Request, d: Decision, status: Status): Request
    requires r.current.Some?
  {
    r.(decisions := r.decisions + [d], statuses := r.statuses[r.current.value := status])
  }

  /** What marking keeps: the visits, the budget, the steps left earlier, and the coverage. */
  lemma MarkingKeeps(wf: Workflow, m: Step, r: Request, d: Decision, status: Status)
    requires Inv(wf, m, r) && r.current == Some(d.stepId)
    ensures var r' := Marked(r, d, status);
            && r'.statuses.Keys == r.statuses.Keys
            && VisitsOk(wf, m, r')
  {
    hide FindStep, Votes, LeftOk, StatusOk, CoverageOk, BudgetOk, Waiting;
    var r' := Marked(r, d, status);
    assert r'.statuses.Keys == r.statuses.Keys;
    assert forall id :: id in r.statuses && id != d.stepId ==> r'.statuses[id] == r.statuses[id];
  }

  /** Marking the current step changes neither what was visited nor what was jumped over. */
  lemma MarkingJumpsNothing(wf: Workflow, r: Request, status: Status)
    requires forall id :: id in r.statuses ==> Known(wf, id)
    requires r.current.Some? && OpenOk(wf, r)
    requires status != Escalated || !Known(wf, EscalationId(r.current.value))
    ensures var statuses := r.statuses[r.current.value := status];
            forall order :: OrderOk(wf, statuses, order) == OrderOk(wf, r.statuses, order)
  {
    hide FindStep, Waiting, Escalates;
    var c := r.current.value;
    var statuses := r.statuses[c := status];
    assert statuses.Keys == r.statuses.Keys;
    forall order ensures Jumped(wf, statuses, order) == Jumped(wf, r.statuses, order) {
      assert forall id :: id in statuses ==>
        JumpsOver(wf, statuses, id, order) == JumpsOver(wf, r.statuses, id, order);
    }
  }

  /** Starting a later step leaves the earlier orders as they were, unless it is an escalation step. */
  lemma StartingJumpsNothing(wf: Workflow, statuses: map<string, Status>, n: Step, order: int)
    requires forall id :: id in statuses ==> Known(wf, id)
    requires FindStep(wf, n.id) == Some(n) && order < n.order && n.id !in statuses
    requires forall id :: id in statuses && statuses[id] == Escalated ==> EscalationId(id) != n.id
    ensures OrderOk(wf, statuses[n.id := Pending], order) == OrderOk(wf, statuses, order)
  {
    hide FindStep;
    var after := statuses[n.id := Pending];
    assert forall id :: id in after ==>
      (JumpsOver(wf, after, id, order) <==> id in statuses && JumpsOver(wf, statuses, id, order));
    assert Jumped(wf, after, order) ==> Jumped(wf, statuses, order);
    assert Jumped(wf, statuses, order) ==> Jumped(wf, after, order);
    assert Covered(wf, after.Keys, order) ==> Covered(wf, statuses.Keys, order);
    if Covered(wf, statuses.Keys, order) {
      var id :| id in statuses.Keys && At(wf, id).order == order;
      assert id in after.Keys;
    }
  }

  lemma RejectionKeeps(wf: Workflow, m: Step, r: Request, d: Decision)
    requires Inv(wf, m, r) && r.current == Some(d.stepId) && d.verdict != Approve
    ensures Inv(wf, m, Marked(r, d, Rejected).(status := Rejected, current := None))
  {
    hide FindStep, Votes, Covered, Evidence, Waiting, Approvals, NeedAbove, Need, IsLast, Escalates;
    var r' := Marked(r, d, Rejected).(status := Rejected, current := None);
    VotesFitNeed(wf, m, r);
    MarkingKeeps(wf, m, r, d, Rejected);
    assert LeftOk(wf, r') by {
      OthersStayLeft(wf, r, d, r');
    }
    ApprovalsAppend(r.decisions, d);
  }

  /** A waiting step has fewer approvals than it needs. */
  lemma VotesFitNeed(wf: Workflow, m: Step, r: Request)
    requires Inv(wf, m, r) && r.current.Some?
    ensures Known(wf, r.current.value)
    ensures Votes(r.decisions, r.current.value, Approve) < Need(At(wf, r.current.value))
    ensures Remaining(wf, r) > NeedAbove(wf.steps, At(wf, r.current.value).order)
  {
    hide FindStep, Votes, NeedAbove, LeftOk, StatusOk, CoverageOk, BudgetOk;
  }

  lemma ApprovalFinishes(wf: Workflow, m: Step, r: Request, d: Decision)
    requires Inv(wf, m, r) && r.current == Some(d.stepId)
    requires Evidence(At(wf, d.stepId), r.decisions + [d])
    requires IsLast(wf, At(wf, d.stepId))
    ensures Inv(wf, m, Marked(r, d, Approved).(status := Approved, current := None))
  {
    hide FindStep, Votes, Covered, Evidence, Waiting, Approvals, NeedAbove;
    var r' := Marked(r, d, Approved).(status := Approved, current := None);
    VotesFitNeed(wf, m, r);
    MarkingKeeps(wf, m, r, d, Approved);
    assert LeftOk(wf, r') by {
      OthersStayLeft(wf, r, d, r');
    }
    assert StatusOk(wf, r') by {
      assert r'.statuses[d.stepId] == Approved;
    }
    assert CoverageOk(wf, m, r') by {
      hide LeftOk, BudgetOk, OrderOk, StatusOk;
      MarkingJumpsNothing(wf, r, Approved);
    }
    assert BudgetOk(wf, m, r') by {
      hide Left, LeftOk, StatusOk, CoverageOk, VisitsOk;
      ApprovalsAppend(r.decisions, d);
    }
  }

  /** Moving on: every step of `marked` was left properly, and `n` is a later step. */
  ghost predicate ReadyToMove(wf: Workflow, m: Step, marked: Request, n: Step) {
    && marked.workflowId == wf.id && m in wf.steps && n in wf.steps
    && marked.status == Pending
    && VisitsOk(wf, m, marked)
    && (forall id :: id in marked.statuses ==> At(wf, id).order < n.order)
    && (forall id :: id in marked.statuses ==>
          || Left(wf, marked, id)
          || (marked.statuses[id] == Escalated && Escalates(At(wf, id)) && n.id == EscalationId(id)))
    && Approvals(marked.decisions) + NeedAbove(wf.steps, n.order) + Need(n) <= Need(m) + NeedAbove(wf.steps, m.order)
    && (forall s {:trigger OrderOk(wf, marked.statuses[n.id := Pending], s.order)} ::
          s in wf.steps && m.order <= s.order < n.order ==> OrderOk(wf, marked.statuses[n.id := Pending], s.order))
  }

  lemma MoveKeeps(wf: Workflow, m: Step, marked: Request, n: Step, now: int)
    requires DistinctIds(wf.steps) && ReadyToMove(wf, m, marked, n)
    ensures Inv(wf, m, StartStep(marked, n.id, wf, now))
  {
    hide FindStep, Votes, NeedAbove, Approvals, Covered;
    FindStepFinds(wf, n);
    MoveVisits(wf, m, marked, n, now);
    MoveLeaves(wf, m, marked, n, now);
    MoveCovers(wf, m, marked, n, now);
  }

  lemma MoveVisits(wf: Workflow, m: Step, marked: Request, n: Step, now: int)
    requires FindStep(wf, n.id) == Some(n) && ReadyToMove(wf, m, marked, n)
    ensures n.id !in marked.statuses
    ensures var r' := StartStep(marked, n.id, wf, now);
            VisitsOk(wf, m, r') && OpenOk(wf, r') && BudgetOk(wf, m, r')
  {
    hide FindStep, Votes, NeedAbove, Approvals, Covered, Left, LeftOk, StatusOk, CoverageOk, Escalates;
    NoVotes(marked.decisions, n.id);
  }

  lemma MoveLeaves(wf: Workflow, m: Step, marked: Request, n: Step, now: int)
    requires FindStep(wf, n.id) == Some(n) && ReadyToMove(wf, m, marked, n) && n.id !in marked.statuses
    requires VisitsOk(wf, m, StartStep(marked, n.id, wf, now))
    ensures LeftOk(wf, StartStep(marked, n.id, wf, now))
  {
    hide FindStep, Votes, NeedAbove, Approvals, Covered, Evidence;
    var r' := StartStep(marked, n.id, wf, now);
    forall id | id in r'.statuses && r'.current != Some(id) ensures Left(wf, r', id) {
      assert id in marked.statuses && r'.statuses[id] == marked.statuses[id];
    }
  }

  lemma MoveCovers(wf: Workflow, m: Step, marked: Request, n: Step, now: int)
    requires FindStep(wf, n.id) == Some(n) && ReadyToMove(wf, m, marked, n) && n.id !in marked.statuses
    requires VisitsOk(wf, m, StartStep(marked, n.id, wf, now))
    ensures CoverageOk(wf, m, StartStep(marked, n.id, wf, now))
  {
    hide FindStep, Votes, NeedAbove, Approvals, Left;
    var r' := StartStep(marked, n.id, wf, now);
    assert r'.statuses == marked.statuses[n.id := Pending];
    assert OrderOk(wf, r'.statuses, n.order) by {
      assert n.id in r'.statuses.Keys;
      assert forall id :: id in r'.statuses ==> At(wf, id).order <= n.order;
    }
  }

  lemma ApprovalMovesOn(wf: Workflow, m: Step, r: Request, d: Decision, n: Step, now: int)
    requires DistinctIds(wf.steps) && Inv(wf, m, r) && r.current == Some(d.stepId)
    requires Evidence(At(wf, d.stepId), r.decisions + [d])
    requires NextStep(wf, At(wf, d.stepId).order) == Some(n)
    ensures Inv(wf, m, StartStep(Marked(r, d, Approved), n.id, wf, now))
  {
    hide FindStep, NextStep, Votes, NeedAbove, Approvals, Covered, Evidence, Waiting;
    var marked := Marked(r, d, Approved);
    assert ReadyToMove(wf, m, marked, n) by {
      MarkingKeeps(wf, m, r, d, Approved);
      OthersStayLeft(wf, r, d, marked);
      ApprovalBudget(wf, m, r, d, n);
      ApprovalCoverage(wf, m, r, d, n);
    }
    hide ReadyToMove, Inv;
    MoveKeeps(wf, m, marked, n, now);
  }

  /** No step lies between an approved step and the next one, so every order stays accounted for. */
  lemma ApprovalCoverage(wf: Workflow, m: Step, r: Request, d: Decision, n: Step)
    requires DistinctIds(wf.steps) && Inv(wf, m, r) && r.current == Some(d.stepId)
    requires NextStep(wf, At(wf, d.stepId).order) == Some(n)
    ensures var statuses := Marked(r, d, Approved).statuses[n.id := Pending];
            forall s {:trigger OrderOk(wf, statuses, s.order)} ::
              s in wf.steps && m.order <= s.order < n.order ==> OrderOk(wf, statuses, s.order)
  {
    hide FindStep, NextStep, OrderOk, StatusOk, BudgetOk, Waiting, Evidence, Covered;
    FindStepFinds(wf, n);
    var marked := r.statuses[d.stepId := Approved];
    MarkingJumpsNothing(wf, r, Approved);
    PendingIsOpen(wf, m, r);
    assert n.id !in r.statuses;
    forall id | id in marked && marked[id] == Escalated ensures EscalationId(id) != n.id {
      assert Left(wf, r, id);
    }
    forall s | s in wf.steps && m.order <= s.order < n.order ensures OrderOk(wf, marked[n.id := Pending], s.order) {
      assert s.order <= At(wf, d.stepId).order;
      assert OrderOk(wf, r.statuses, s.order);
      StartingJumpsNothing(wf, marked, n, s.order);
    }
  }

  /** A step between a timed-out step and its escalation step is jumped over, and was not visited. */
  lemma EscalationCoverage(wf: Workflow, m: Step, r: Request, n: Step)
    requires Inv(wf, m, r) && r.current.Some?
    requires FindStep(wf, n.id) == Some(n)
    requires n.id == EscalationId(r.current.value) && n.order > At(wf, r.current.value).order
    ensures var statuses := r.statuses[r.current.value := Escalated][n.id := Pending];
            forall s {:trigger OrderOk(wf, statuses, s.order)} ::
              s in wf.steps && m.order <= s.order < n.order ==> OrderOk(wf, statuses, s.order)
  {
    hide FindStep, StatusOk, BudgetOk, Waiting, Evidence;
    var c := r.current.value;
    var low := At(wf, c).order;
    PendingIsOpen(wf, m, r);
    var statuses := r.statuses[c := Escalated][n.id := Pending];
    forall s | s in wf.steps && m.order <= s.order < n.order ensures OrderOk(wf, statuses, s.order) {
      if s.order <= low {
        EarlierOrdersStay(wf, r, n, s.order);
        assert OrderOk(wf, r.statuses, s.order);
      } else {
        assert JumpsOver(wf, statuses, c, s.order);
        assert forall id :: id in statuses ==> At(wf, id).order <= low || id == n.id;
      }
    }
  }

  lemma EarlierOrdersStay(wf: Workflow, r: Request, n: Step, order: int)
    requires forall id :: id in r.statuses ==> Known(wf, id)
    requires r.status == Pending && r.current.Some? && OpenOk(wf, r) && LeftOk(wf, r)
    requires FindStep(wf, n.id) == Some(n)
    requires n.id == EscalationId(r.current.value) && order <= At(wf, r.current.value).order < n.order
    ensures OrderOk(wf, r.statuses[r.current.value := Escalated][n.id := Pending], order)
        <==> OrderOk(wf, r.statuses, order)
  {
    hide FindStep, Waiting, Evidence;
    var c := r.current.value;
    var statuses := r.statuses[c := Escalated][n.id := Pending];
    forall id | id in statuses ensures JumpsOver(wf, statuses, id, order)
                                   <==> id in r.statuses && JumpsOver(wf, r.statuses, id, order)
    {
      if id in r.statuses && id != c && r.statuses[id] == Escalated {
        assert Left(wf, r, id);
      }
    }
    assert Jumped(wf, statuses, order) == Jumped(wf, r.statuses, order);
    assert Covered(wf, statuses.Keys, order) ==> Covered(wf, r.statuses.Keys, order);
    if Covered(wf, r.statuses.Keys, order) {
      var id :| id in r.statuses.Keys && At(wf, id).order == order;
      assert id in statuses.Keys;
    }
  }

  lemma ApprovalBudget(wf: Workflow, m: Step, r: Request, d: Decision, n: Step)
    requires Inv(wf, m, r) && r.current == Some(d.stepId)
    requires n in wf.steps && n.order > At(wf, d.stepId).order
    ensures Approvals(r.decisions + [d]) + NeedAbove(wf.steps, n.order) + Need(n)
         <= Need(m) + NeedAbove(wf.steps, m.order)
  {
    hide FindStep, Votes, NeedAbove, Approvals, LeftOk, StatusOk, CoverageOk;
    VotesFitNeed(wf, m, r);
    ApprovalsAppend(r.decisions, d);
    NeedAboveStep(wf.steps, n, At(wf, d.stepId).order);
  }

  /** A decision the engine accepts keeps the invariant, and an approval uses up part of the budget. */
  lemma DecisionKeeps(wf: Workflow, m: Step, r: Request, approver: string, verdict: Verdict, now: int)
    requires DistinctIds(wf.steps) && Inv(wf, m, r)
    requires Decided(r, Some(wf), approver, verdict, now).Ok?
    ensures Inv(wf, m, Decided(r, Some(wf), approver, verdict, now).value.0)
  {
    hide FindStep, NextStep, Votes, NeedAbove, Approvals, Covered, VisitsOk, LeftOk, StatusOk, CoverageOk, BudgetOk;
    var c := r.current.value;
    var step := At(wf, c);
    var d := Decision(c, approver, verdict);
    var r' := Decided(r, Some(wf), approver, verdict, now).value.0;
    JudgedSoundly(wf, m, r, d);
    PendingIsOpen(wf, m, r);
    var judged := Judged(step, r.decisions + [d], verdict, StatusOf(r, c));
    if judged == Rejected {
      RejectionKeeps(wf, m, r, d);
    } else if judged == Approved {
      match NextStep(wf, step.order)
      case None => ApprovalFinishes(wf, m, r, d);
      case Some(n) => ApprovalMovesOn(wf, m, r, d, n, now);
    } else {
      VoteKeepsWaiting(wf, m, r, d);
    }
  }

  /** What the engine concludes about the current step is what the votes say. */
  lemma JudgedSoundly(wf: Workflow, m: Step, r: Request, d: Decision)
    requires Inv(wf, m, r) && r.current == Some(d.stepId)
    ensures var step := At(wf, d.stepId);
            var ds := r.decisions + [d];
            match Judged(step, ds, d.verdict, StatusOf(r, d.stepId))
            case Rejected => d.verdict != Approve
            case Approved => Evidence(step, ds)
            case _ => Waiting(step, ds)
  {
    hide FindStep, Votes, LeftOk, StatusOk, CoverageOk, BudgetOk;
    BallotsAppend(r.decisions, d);
  }

  lemma TimeoutKeeps(wf: Workflow, m: Step, r: Request, now: int)
    requires WellFormed(wf) && Inv(wf, m, r)
    ensures Inv(wf, m, TimedOut(r, Some(wf), now))
  {
    hide FindStep, Votes, NeedAbove, Approvals, Covered, Evidence, Waiting, WellFormed;
    if Overdue(r, Some(wf), now) {
      var c := r.current.value;
      if !Escalates(At(wf, c)) {
        TimeoutEnds(wf, m, r, now);
      } else if !Known(wf, EscalationId(c)) {
        TimeoutIgnored(wf, m, r, now);
      } else {
        var n := At(wf, EscalationId(c));
        assert n.order > At(wf, c).order by { LaterEscalation(wf, At(wf, c), n); }
        TimeoutReady(wf, m, r, n);
        assert TimedOut(r, Some(wf), now) == StartStep(r.(statuses := r.statuses[c := Escalated]), n.id, wf, now);
        assert DistinctIds(wf.steps) by { DistinctOf(wf); }
        MoveKeeps(wf, m, r.(statuses := r.statuses[c := Escalated]), n, now);
      }
    }
  }

  lemma LaterEscalation(wf: Workflow, s: Step, e: Step)
    requires WellFormed(wf) && s in wf.steps && e in wf.steps && e.id == EscalationId(s.id)
    ensures e.order > s.order
  {
  }

  lemma DistinctOf(wf: Workflow)
    requires WellFormed(wf)
    ensures DistinctIds(wf.steps)
  {
  }

  /** A timeout of a step without an escalation target ends the request. */
  lemma TimeoutEnds(wf: Workflow, m: Step, r: Request, now: int)
    requires Inv(wf, m, r) && Overdue(r, Some(wf), now) && !Escalates(At(wf, r.current.value))
    ensures Inv(wf, m, TimedOut(r, Some(wf), now))
    ensures TimedOut(r, Some(wf), now).status == Escalated
  {
    hide FindStep, Votes, NeedAbove, Approvals, Covered, Evidence, Waiting, Need, IsLast;
    var c := r.current.value;
    var r' := TimedOut(r, Some(wf), now);
    VotesFitNeed(wf, m, r);
    assert r'.statuses.Keys == r.statuses.Keys;
    forall id | id in r'.statuses ensures Left(wf, r', id) {
      if id != c { assert Left(wf, r, id) && r'.statuses[id] == r.statuses[id]; }
    }
  }

  /** A timeout whose escalation step is not in the workflow leaves the request where it is. */
  lemma TimeoutIgnored(wf: Workflow, m: Step, r: Request, now: int)
    requires Inv(wf, m, r) && Overdue(r, Some(wf), now)
    requires Escalates(At(wf, r.current.value)) && !Known(wf, EscalationId(r.current.value))
    ensures Inv(wf, m, TimedOut(r, Some(wf), now))
  {
    hide FindStep, Votes, NeedAbove, Approvals, Covered, Evidence, Waiting, Need, IsLast;
    var c := r.current.value;
    var r' := TimedOut(r, Some(wf), now);
    assert r' == r.(statuses := r.statuses[c := Escalated]);
    assert r'.statuses.Keys == r.statuses.Keys;
    assert forall id :: id in r.statuses && id != c ==> r'.statuses[id] == r.statuses[id];
    forall id | id in r'.statuses && id != c ensures Left(wf, r', id) {
      assert Left(wf, r, id);
    }
    assert CoverageOk(wf, m, r') by {
      hide LeftOk, BudgetOk, OrderOk, StatusOk;
      MarkingJumpsNothing(wf, r, Escalated);
    }
  }

  /**
   A timeout leaves a request at its step exactly when that step escalates to a step the workflow
   does not have. The request then stays overdue, and no later sweep changes anything.
   */
  lemma TimeoutStaysIff(wf: Workflow, m: Step, r: Request, now: int)
    requires WellFormed(wf) && Inv(wf, m, r) && Overdue(r, Some(wf), now)
    ensures var c := r.current.value;
            var r' := TimedOut(r, Some(wf), now);
            && (r'.status == Pending && r'.current == r.current
                <==> Escalates(At(wf, c)) && !Known(wf, EscalationId(c)))
            && (r'.status == Pending && r'.current == r.current ==>
                  forall t :: t >= now ==> Overdue(r', Some(wf), t) && TimedOut(r', Some(wf), t) == r')
  {
    hide FindStep, Inv, WellFormed;
    var c := r.current.value;
    if Escalates(At(wf, c)) && Known(wf, EscalationId(c)) {
      LaterEscalation(wf, At(wf, c), At(wf, EscalationId(c)));
    } else if Escalates(At(wf, c)) {
      var r' := TimedOut(r, Some(wf), now);
      assert r' == r.(statuses := r.statuses[c := Escalated]);
      assert r'.statuses[c := Escalated] == r'.statuses;
    }
  }

  lemma TimeoutReady(wf: Workflow, m: Step, r: Request, n: Step)
    requires Inv(wf, m, r) && r.current.Some? && Escalates(At(wf, r.current.value))
    requires FindStep(wf, n.id) == Some(n)
    requires n.id == EscalationId(r.current.value) && n.order > At(wf, r.current.value).order
    ensures ReadyToMove(wf, m, r.(statuses := r.statuses[r.current.value := Escalated]), n)
  {
    hide FindStep, Votes, NeedAbove, Approvals, Covered, Evidence, Waiting;
    var c := r.current.value;
    var marked := r.(statuses := r.statuses[c := Escalated]);
    assert marked.statuses.Keys == r.statuses.Keys;
    assert Approvals(marked.decisions) + NeedAbove(wf.steps, n.order) + Need(n)
        <= Need(m) + NeedAbove(wf.steps, m.order) by {
      hide LeftOk, CoverageOk, StatusOk, VisitsOk;
      VotesFitNeed(wf, m, r);
      NeedAboveStep(wf.steps, n, At(wf, c).order);
    }
    assert forall s {:trigger OrderOk(wf, marked.statuses[n.id := Pending], s.order)} ::
      s in wf.steps && m.order <= s.order < n.order ==> OrderOk(wf, marked.statuses[n.id := Pending], s.order) by {
      EscalationCoverage(wf, m, r, n);
    }
    hide OrderOk, CoverageOk;
    forall id | id in marked.statuses && id != c ensures Left(wf, marked, id) {
      assert Left(wf, r, id) && marked.statuses[id] == r.statuses[id];
    }
  }

  /** Every approval brings the request closer to its end; nothing takes it further away. */
  lemma DecisionShortens(wf: Workflow, m: Step, r: Request, approver: string, verdict: Verdict, now: int)
    requires DistinctIds(wf.steps) && Inv(wf, m, r)
    requires Decided(r, Some(wf), approver, verdict, now).Ok?
    ensures Remaining(wf, Decided(r, Some(wf), approver, verdict, now).value.0)
         <= Remaining(wf, r) - (if verdict == Approve then 1 else 0)
    ensures verdict == Approve ==> Decided(r, Some(wf), approver, verdict, now).value.0.status in {Pending, Approved}
  {
    hide FindStep, NextStep, Votes, NeedAbove, Approvals, Covered, VisitsOk, LeftOk, StatusOk, CoverageOk, BudgetOk;
    var c := r.current.value;
    var step := At(wf, c);
    var d := Decision(c, approver, verdict);
    JudgedSoundly(wf, m, r, d);
    VotesFitNeed(wf, m, r);
    BallotsAppend(r.decisions, d);
    var judged := Judged(step, r.decisions + [d], verdict, StatusOf(r, c));
    if judged == Approved && NextStep(wf, step.order).Some? {
      var n := NextStep(wf, step.order).value;
      FindStepFinds(wf, n);
      NeedAboveStep(wf.steps, n, step.order);
    } else if judged != Approved && judged != Rejected {
      PendingIsOpen(wf, m, r);
    }
  }

  lemma PendingIsOpen(wf: Workflow, m: Step, r: Request)
    requires Inv(wf, m, r)
    ensures r.status == Pending <==> r.current.Some?
  {
    hide VisitsOk, OpenOk, LeftOk, CoverageOk, BudgetOk;
  }

  lemma TimeoutNeverLengthens(wf: Workflow, m: Step, r: Request, now: int)
    requires WellFormed(wf) && Inv(wf, m, r)
    ensures Remaining(wf, TimedOut(r, Some(wf), now)) <= Remaining(wf, r)
  {
    hide FindStep, Votes, NeedAbove, Approvals, Covered, VisitsOk, LeftOk, StatusOk, CoverageOk, BudgetOk, WellFormed;
    hide Evidence;
    if Overdue(r, Some(wf), now) {
      var c := r.current.value;
      VotesFitNeed(wf, m, r);
      if Escalates(At(wf, c)) && Known(wf, EscalationId(c)) {
        var n := At(wf, EscalationId(c));
        LaterEscalation(wf, At(wf, c), n);
        NeedAboveStep(wf.steps, n, At(wf, c).order);
      }
    }
  }

  // ---------- deadlines and answers ----------

  /** The deadline belongs to the current step and counts from its start; only steps with one time out. */
  ghost predicate ClockOk(wf: Workflow, r: Request) {
    && (r.current.Some? && Known(wf, r.current.value) ==>
          var step := At(wf, r.current.value);
          && r.startedAt.Some?
          && r.expiresAt == if Timed(step) then Some(r.startedAt.value + step.timeoutMinutes.value) else None)
    && (forall id :: id in r.statuses && r.statuses[id] == Escalated && Known(wf, id) ==> Timed(At(wf, id)))
  }

  lemma SubmitSetsClock(wf: Workflow, attributes: map<string, string>, compare: (Condition, string) -> bool, now: int)
    requires Submitted(wf, attributes, compare, now).Some?
    ensures ClockOk(wf, Submitted(wf, attributes, compare, now).value)
  {
    hide FindStep, MatchingStep;
  }

  lemma DecisionKeepsClock(wf: Workflow, r: Request, approver: string, verdict: Verdict, now: int)
    requires ClockOk(wf, r) && Decided(r, Some(wf), approver, verdict, now).Ok?
    ensures ClockOk(wf, Decided(r, Some(wf), approver, verdict, now).value.0)
  {
    hide FindStep, NextStep, Judged;
  }

  lemma TimeoutKeepsClock(wf: Workflow, r: Request, now: int)
    requires ClockOk(wf, r)
    ensures ClockOk(wf, TimedOut(r, Some(wf), now))
  {
    hide FindStep;
  }

  /** The answer to a decision names the step the request is at, and says `final` exactly when it is finished. */
  lemma ResponseIsTruthful(wf: Workflow, m: Step, r: Request, approver: string, verdict: Verdict, now: int)
    requires DistinctIds(wf.steps) && Inv(wf, m, r)
    requires Decided(r, Some(wf), approver, verdict, now).Ok?
    ensures var (after, answer) := Decided(r, Some(wf), approver, verdict, now).value;
            && (answer.isFinal <==> after.status in {Approved, Rejected})
            && (answer.nextStep.Some? ==> answer.nextStep == after.current && answer.nextStep != r.current)
            && (!answer.isFinal && answer.nextStep.None? ==> after.current == r.current)
  {
    hide FindStep, NextStep, Votes, Judged, LeftOk, CoverageOk, BudgetOk;
    PendingIsOpen(wf, m, r);
    var step := At(wf, r.current.value);
    if NextStep(wf, step.order).Some? {
      FindStepFinds(wf, NextStep(wf, step.order).value);
    }
  }
}
