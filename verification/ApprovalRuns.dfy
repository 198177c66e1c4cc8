/**
 The approval engine over whole runs: the invariant of `ApprovalSafety` holds for every request of
 every reachable store, and this is what it says about approved, finished and open requests.
 */
module ApprovalRuns {
  import opened Wrappers
  import opened Sorting
  import opened Approval
  import opened ApprovalSafety

  // ---------- reachable stores ----------

  /** Workflows are well formed and not replaced once a request uses them; request ids are fresh. */
  ghost predicate Allowed(s: Store, e: Event) {
    match e
    case Register(wf) => WellFormed(wf) && forall id :: id in s.requests ==> s.requests[id].workflowId != wf.id
    case Submit(id, _, _, _) => id !in s.requests
    case _ => true
  }

  ghost predicate AllowedRun(s: Store, events: seq<Event>, compare: (Condition, string) -> bool)
    decreases |events|
  {
    events != [] ==> Allowed(s, events[0]) && AllowedRun(ApplyEvent(s, events[0], compare), events[1..], compare)
  }

  ghost predicate RequestOk(s: Store, r: Request, compare: (Condition, string) -> bool) {
    && r.workflowId in s.workflows
    && var wf := s.workflows[r.workflowId];
    && MatchingStep(wf, r.attributes, compare).Some?
    && Inv(wf, MatchingStep(wf, r.attributes, compare).value, r)
    && ClockOk(wf, r)
  }

  ghost predicate StoreInv(s: Store, compare: (Condition, string) -> bool) {
    && (forall id :: id in s.workflows ==> s.workflows[id].id == id && WellFormed(s.workflows[id]))
    && (forall id :: id in s.requests ==> RequestOk(s, s.requests[id], compare))
  }

  lemma StepKeepsInv(s: Store, e: Event, compare: (Condition, string) -> bool)
    requires StoreInv(s, compare) && Allowed(s, e)
    ensures StoreInv(ApplyEvent(s, e, compare), compare)
  {
    hide MatchingStep, Inv, WellFormed, TimedOut, Decided, Submitted, ClockOk;
    var s' := ApplyEvent(s, e, compare);
    forall id | id in s'.requests ensures RequestOk(s', s'.requests[id], compare) {
      match e
      case Register(wf) =>
        assert RequestOk(s, s.requests[id], compare);
      case Submit(id', wfId, attributes, now) =>
        if id in s.requests && id != id' {
          assert RequestOk(s, s.requests[id], compare);
        } else {
          SubmittedOk(s, wfId, attributes, compare, now);
        }
      case Decide(id', approver, verdict, now) =>
        assert RequestOk(s, s.requests[id], compare);
        if id == id' && DecideIn(s, id, approver, verdict, now).Ok? {
          DecidedOk(s, s.requests[id], approver, verdict, compare, now);
        }
      case CheckTimeouts(now) =>
        assert RequestOk(s, s.requests[id], compare);
        TimedOutOk(s, s.requests[id], compare, now);
    }
  }

  lemma SubmittedOk(s: Store, wfId: string, attributes: map<string, string>, compare: (Condition, string) -> bool,
                    now: int)
    requires wfId in s.workflows && s.workflows[wfId].id == wfId && WellFormed(s.workflows[wfId])
    requires Submitted(s.workflows[wfId], attributes, compare, now).Some?
    ensures RequestOk(s, Submitted(s.workflows[wfId], attributes, compare, now).value, compare)
  {
    hide MatchingStep, Inv, ClockOk;
    SubmitSetsClock(s.workflows[wfId], attributes, compare, now);
    SubmitEstablishes(s.workflows[wfId], attributes, compare, now);
  }

  lemma DecidedOk(s: Store, r: Request, approver: string, verdict: Verdict, compare: (Condition, string) -> bool,
                  now: int)
    requires RequestOk(s, r, compare) && WellFormed(s.workflows[r.workflowId])
    requires Decided(r, Some(s.workflows[r.workflowId]), approver, verdict, now).Ok?
    ensures RequestOk(s, Decided(r, Some(s.workflows[r.workflowId]), approver, verdict, now).value.0, compare)
  {
    hide MatchingStep, Inv, FindStep, NextStep, Judged, CompleteStep;
    var wf := s.workflows[r.workflowId];
    DistinctOf(wf);
    DecisionLeavesIdentity(r, wf, approver, verdict, now);
    hide WellFormed, Decided, ClockOk;
    DecisionKeepsClock(wf, r, approver, verdict, now);
    DecisionKeeps(wf, MatchingStep(wf, r.attributes, compare).value, r, approver, verdict, now);
  }

  lemma DecisionLeavesIdentity(r: Request, wf: Workflow, approver: string, verdict: Verdict, now: int)
    requires Decided(r, Some(wf), approver, verdict, now).Ok?
    ensures var r' := Decided(r, Some(wf), approver, verdict, now).value.0;
            r'.workflowId == r.workflowId && r'.attributes == r.attributes
  {
    hide FindStep, NextStep, Judged;
  }

  lemma TimedOutOk(s: Store, r: Request, compare: (Condition, string) -> bool, now: int)
    requires RequestOk(s, r, compare) && WellFormed(s.workflows[r.workflowId])
    ensures RequestOk(s, TimedOut(r, Some(s.workflows[r.workflowId]), now), compare)
  {
    hide MatchingStep, Inv, WellFormed, ClockOk;
    var wf := s.workflows[r.workflowId];
    TimeoutKeepsClock(wf, r, now);
    TimeoutKeeps(wf, MatchingStep(wf, r.attributes, compare).value, r, now);
  }

  lemma {:induction false} RunKeepsInv(s: Store, events: seq<Event>, compare: (Condition, string) -> bool)
    requires StoreInv(s, compare) && AllowedRun(s, events, compare)
    ensures StoreInv(Run(s, events, compare), compare)
    decreases |events|
  {
    if events != [] {
      StepKeepsInv(s, events[0], compare);
      RunKeepsInv(ApplyEvent(s, events[0], compare), events[1..], compare);
    }
  }

  /** A request found in the store after an allowed run from the empty store. */
  ghost predicate Reachable(wf: Workflow, r: Request, compare: (Condition, string) -> bool) {
    exists events: seq<Event>, id: string ::
      && AllowedRun(EMPTY, events, compare)
      && ReachedBy(Run(EMPTY, events, compare), id, wf, r)
  }

  ghost predicate ReachedBy(s: Store, id: string, wf: Workflow, r: Request) {
    id in s.requests && s.requests[id] == r && r.workflowId in s.workflows && s.workflows[r.workflowId] == wf
  }

  lemma ReachableInv(wf: Workflow, r: Request, compare: (Condition, string) -> bool)
    requires Reachable(wf, r, compare)
    ensures WellFormed(wf)
    ensures MatchingStep(wf, r.attributes, compare).Some?
    ensures Inv(wf, MatchingStep(wf, r.attributes, compare).value, r)
    ensures ClockOk(wf, r)
  {
    hide Inv, MatchingStep, WellFormed, ClockOk;
    var events: seq<Event>, id: string :|
      AllowedRun(EMPTY, events, compare) && ReachedBy(Run(EMPTY, events, compare), id, wf, r);
    RunKeepsInv(EMPTY, events, compare);
    assert RequestOk(Run(EMPTY, events, compare), r, compare);
  }

  // ---------- what can be reached ----------

  lemma {:induction false} RunAppend(s: Store, events: seq<Event>, e: Event, compare: (Condition, string) -> bool)
    requires AllowedRun(s, events, compare) && Allowed(Run(s, events, compare), e)
    ensures AllowedRun(s, events + [e], compare)
    ensures Run(s, events + [e], compare) == ApplyEvent(Run(s, events, compare), e, compare)
    decreases |events|
  {
    hide ApplyEvent, Allowed;
    var longer := events + [e];
    if events == [] {
      assert longer == [e] && longer[1..] == [];
      assert Run(ApplyEvent(s, e, compare), [], compare) == ApplyEvent(s, e, compare);
    } else {
      assert longer[0] == events[0] && longer[1..] == events[1..] + [e];
      RunAppend(ApplyEvent(s, events[0], compare), events[1..], e, compare);
    }
  }

  /** Whatever a submission to a registered workflow yields is reachable. */
  lemma SubmittedIsReachable(wf: Workflow, attributes: map<string, string>, compare: (Condition, string) -> bool,
                             now: int)
    requires WellFormed(wf) && Submitted(wf, attributes, compare, now).Some?
    ensures Reachable(wf, Submitted(wf, attributes, compare, now).value, compare)
  {
    hide WellFormed, MatchingStep, FindStep;
    var register, submit := Register(wf), Submit("request", wf.id, attributes, now);
    assert AllowedRun(EMPTY, [], compare) && Run(EMPTY, [], compare) == EMPTY;
    RunAppend(EMPTY, [], register, compare);
    RunAppend(EMPTY, [] + [register], submit, compare);
    var events := [] + [register] + [submit];
    assert ReachedBy(Run(EMPTY, events, compare), "request", wf, Submitted(wf, attributes, compare, now).value);
  }

  /** So is what a decision or a sweep makes of a reachable request. */
  lemma DecidedIsReachable(wf: Workflow, r: Request, compare: (Condition, string) -> bool,
                           approver: string, verdict: Verdict, now: int)
    requires Reachable(wf, r, compare) && Decided(r, Some(wf), approver, verdict, now).Ok?
    ensures Reachable(wf, Decided(r, Some(wf), approver, verdict, now).value.0, compare)
  {
    var events: seq<Event>, id: string :|
      AllowedRun(EMPTY, events, compare) && ReachedBy(Run(EMPTY, events, compare), id, wf, r);
    DecisionLeavesIdentity(r, wf, approver, verdict, now);
    hide Run, AllowedRun, Decided;
    RunAppend(EMPTY, events, Decide(id, approver, verdict, now), compare);
    assert ReachedBy(Run(EMPTY, events + [Decide(id, approver, verdict, now)], compare), id, wf,
                     Decided(r, Some(wf), approver, verdict, now).value.0);
  }

  lemma TimedOutIsReachable(wf: Workflow, r: Request, compare: (Condition, string) -> bool, now: int)
    requires Reachable(wf, r, compare)
    ensures Reachable(wf, TimedOut(r, Some(wf), now), compare)
  {
    var events: seq<Event>, id: string :|
      AllowedRun(EMPTY, events, compare) && ReachedBy(Run(EMPTY, events, compare), id, wf, r);
    assert TimedOut(r, Some(wf), now).workflowId == r.workflowId;
    hide Run, AllowedRun, TimedOut;
    RunAppend(EMPTY, events, Event.CheckTimeouts(now), compare);
    assert ReachedBy(Run(EMPTY, events + [Event.CheckTimeouts(now)], compare), id, wf, TimedOut(r, Some(wf), now));
  }

  // ---------- what an approved request has behind it ----------

  /** The first step is the matching one of least order, the earliest listed among equals. */
  lemma RoutingIsFirstMatch(wf: Workflow, attributes: map<string, string>, compare: (Condition, string) -> bool)
    ensures match MatchingStep(wf, attributes, compare)
            case None => forall s :: s in wf.steps ==> !ConditionsMatch(s, attributes, compare)
            case Some(m) => exists i: nat ::
              IsFirstBest(wf.steps, OrderKey(), (s: Step) => ConditionsMatch(s, attributes, compare), i)
              && wf.steps[i] == m
  {
    FirstOfSorted(wf.steps, OrderKey(), (s: Step) => ConditionsMatch(s, attributes, compare));
  }

  /**
   Every step an approved request visited was approved on the recorded votes, or timed out and was
   replaced by its (later) escalation step; the last one was approved.
   */
  lemma ApprovedHasEvidence(wf: Workflow, r: Request, compare: (Condition, string) -> bool)
    requires Reachable(wf, r, compare) && r.status == Approved
    ensures r.current.None?
    ensures forall id :: id in r.statuses ==>
              && Known(wf, id)
              && (|| (r.statuses[id] == Approved && Evidence(At(wf, id), r.decisions))
                  || (r.statuses[id] == Escalated && Escalates(At(wf, id)) && EscalationId(id) in r.statuses))
    ensures exists id :: id in r.statuses && Known(wf, id) && r.statuses[id] == Approved && IsLast(wf, At(wf, id))
  {
    hide FindStep, Votes, NeedAbove, Covered, CoverageOk, BudgetOk, MatchingStep, WellFormed;
    ReachableInv(wf, r, compare);
    forall id | id in r.statuses
      ensures Known(wf, id)
      ensures (r.statuses[id] == Approved && Evidence(At(wf, id), r.decisions))
           || (r.statuses[id] == Escalated && Escalates(At(wf, id)) && EscalationId(id) in r.statuses)
    {
      assert Left(wf, r, id);
    }
  }

  // ---------- termination ----------

  /** However a run goes, a request takes at most this many approvals. */
  lemma ApprovalsBounded(wf: Workflow, r: Request, compare: (Condition, string) -> bool)
    requires Reachable(wf, r, compare)
    ensures Approvals(r.decisions) <= NeedOfAll(wf.steps)
    ensures Approvals(r.decisions) == NeedOfAll(wf.steps) ==> r.status != Pending
  {
    hide FindStep, Votes, NeedAbove, Covered, CoverageOk, LeftOk, MatchingStep, WellFormed;
    ReachableInv(wf, r, compare);
    var m := MatchingStep(wf, r.attributes, compare).value;
    NeedFromBounded(wf.steps, m);
    PendingIsOpen(wf, m, r);
    if r.current.Some? {
      VotesFitNeed(wf, m, r);
    }
  }

  /** A finished request has no current step, refuses every decision, and no timeout touches it. */
  lemma FinishedIsFinal(wf: Workflow, r: Request, compare: (Condition, string) -> bool,
                        approver: string, verdict: Verdict, now: int)
    requires Reachable(wf, r, compare)
    ensures r.status == Pending <==> Decided(r, Some(wf), approver, verdict, now).Ok?
    ensures r.status != Pending ==> Decided(r, Some(wf), approver, verdict, now) == Err(NoActiveStep)
    ensures r.status != Pending ==> TimedOut(r, Some(wf), now) == r
  {
    hide FindStep, Votes, NeedAbove, Covered, CoverageOk, LeftOk, MatchingStep, WellFormed, BudgetOk;
    ReachableInv(wf, r, compare);
    PendingIsOpen(wf, MatchingStep(wf, r.attributes, compare).value, r);
  }

  /** The request after these people approve one after the other; refused decisions change nothing. */
  function ApprovedBy(r: Request, wf: Workflow, people: seq<string>, now: int): Request
    decreases |people|
  {
    if people == [] then r else
      match Decided(r, Some(wf), people[0], Approve, now)
      case Err(_) => r
      case Ok(outcome) => ApprovedBy(outcome.0, wf, people[1..], now)
  }

  lemma {:induction false} ApprovedByIsReachable(wf: Workflow, r: Request, compare: (Condition, string) -> bool,
                                                 people: seq<string>, now: int)
    requires Reachable(wf, r, compare)
    ensures Reachable(wf, ApprovedBy(r, wf, people, now), compare)
    ensures ApprovedBy(r, wf, people, now).attributes == r.attributes
    decreases |people|
  {
    hide Reachable, Decided;
    if people != [] && Decided(r, Some(wf), people[0], Approve, now).Ok? {
      DecidedIsReachable(wf, r, compare, people[0], Approve, now);
      DecisionLeavesIdentity(r, wf, people[0], Approve, now);
      ApprovedByIsReachable(wf, Decided(r, Some(wf), people[0], Approve, now).value.0, compare, people[1..], now);
    }
  }

  /** Enough approvals always finish a pending request, and finish it approved. */
  lemma {:induction false} EnoughApprovalsApprove(wf: Workflow, m: Step, r: Request, people: seq<string>, now: int)
    requires WellFormed(wf) && Inv(wf, m, r) && r.status in {Pending, Approved}
    requires |people| >= Remaining(wf, r)
    ensures ApprovedBy(r, wf, people, now).status == Approved
    decreases |people|
  {
    hide FindStep, Votes, NeedAbove, Approvals, VisitsOk, LeftOk, CoverageOk, BudgetOk, WellFormed, Decided, Remaining;
    PendingIsOpen(wf, m, r);
    if r.status == Pending {
      VotesFitNeed(wf, m, r);
      AcceptedWhenPending(wf, m, r, people[0], now);
      DistinctOf(wf);
      DecisionKeeps(wf, m, r, people[0], Approve, now);
      DecisionShortens(wf, m, r, people[0], Approve, now);
      EnoughApprovalsApprove(wf, m, Decided(r, Some(wf), people[0], Approve, now).value.0, people[1..], now);
    } else {
      assert people == [] || Decided(r, Some(wf), people[0], Approve, now).Err? by {
        FinishedRefuses(wf, r, if people == [] then "" else people[0], now);
      }
    }
  }

  /** Any open request a run can produce is approved by at most this many approvals. */
  lemma OpenRequestsCanFinish(wf: Workflow, r: Request, compare: (Condition, string) -> bool,
                              people: seq<string>, now: int)
    requires Reachable(wf, r, compare) && r.status == Pending
    requires |people| >= NeedOfAll(wf.steps)
    ensures ApprovedBy(r, wf, people, now).status == Approved
  {
    hide FindStep, Votes, NeedAbove, VisitsOk, OpenOk, LeftOk, CoverageOk, StatusOk, WellFormed, MatchingStep;
    hide Remaining;
    ReachableInv(wf, r, compare);
    var m := MatchingStep(wf, r.attributes, compare).value;
    NeedFromBounded(wf.steps, m);
    EnoughApprovalsApprove(wf, m, r, people, now);
  }

  lemma FinishedRefuses(wf: Workflow, r: Request, approver: string, now: int)
    requires r.current.None?
    ensures Decided(r, Some(wf), approver, Approve, now).Err?
  {
  }

  lemma AcceptedWhenPending(wf: Workflow, m: Step, r: Request, approver: string, now: int)
    requires Inv(wf, m, r) && r.current.Some?
    ensures Decided(r, Some(wf), approver, Approve, now).Ok?
  {
    hide FindStep, NextStep, Votes, LeftOk, StatusOk, CoverageOk, BudgetOk;
  }

  /** A sweep acts on a request only when its step has a time limit and that much time has passed. */
  lemma SweepsRespectDeadlines(wf: Workflow, r: Request, compare: (Condition, string) -> bool, now: int)
    requires Reachable(wf, r, compare)
    ensures Overdue(r, Some(wf), now)
       <==> && r.status == Pending && r.current.Some? && Known(wf, r.current.value) && r.startedAt.Some?
            && var limit := At(wf, r.current.value).timeoutMinutes;
               limit.Some? && limit.value != 0 && now > r.startedAt.value + limit.value
  {
    hide FindStep, Inv, MatchingStep, WellFormed;
    ReachableInv(wf, r, compare);
  }
}
