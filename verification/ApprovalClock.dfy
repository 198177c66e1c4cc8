/** When the clock of a request starts, and so when its current step is due. */
module ApprovalClock {
  import opened Wrappers
  import opened Approval
  import opened ApprovalSafety
  import opened ApprovalRuns

  /** The first step's clock starts with the submission. */
  lemma SubmissionStartsClock(wf: Workflow, attributes: map<string, string>, compare: (Condition, string) -> bool,
                              now: int)
    requires DistinctIds(wf.steps) && Submitted(wf, attributes, compare, now).Some?
    ensures Submitted(wf, attributes, compare, now).value.startedAt == Some(now)
    ensures Submitted(wf, attributes, compare, now).value.current.Some?
  {
    hide MatchingStep, FindStep;
    FindStepFinds(wf, MatchingStep(wf, attributes, compare).value);
  }

  /** An event that leaves a request at its step leaves its clock alone; one that moves it starts the clock anew; one
   that ends it stops nothing. */
  ghost predicate ClockFollows(before: Request, after: Request, now: int) {
    if after.current == before.current
    then after.startedAt == before.startedAt && after.expiresAt == before.expiresAt
    else if after.current.Some? then after.startedAt == Some(now)
    else after.startedAt == before.startedAt && after.expiresAt == before.expiresAt
  }

  lemma DecisionMovesClock(wf: Workflow, m: Step, r: Request, approver: string, verdict: Verdict, now: int)
    requires DistinctIds(wf.steps) && Inv(wf, m, r)
    requires Decided(r, Some(wf), approver, verdict, now).Ok?
    ensures ClockFollows(r, Decided(r, Some(wf), approver, verdict, now).value.0, now)
  {
    hide FindStep, NextStep, Judged, LeftOk, StatusOk, CoverageOk, BudgetOk, Waiting;
    var step := At(wf, r.current.value);
    if NextStep(wf, step.order).Some? {
      FindStepFinds(wf, NextStep(wf, step.order).value);
    }
  }

  lemma TimeoutMovesClock(wf: Workflow, r: Request, now: int)
    ensures ClockFollows(r, TimedOut(r, Some(wf), now), now)
  {
    hide FindStep;
    if Overdue(r, Some(wf), now) {
      assert EscalationId(r.current.value) != r.current.value by {
        assert |EscalationId(r.current.value)| > |r.current.value|;
      }
    }
  }

  // ---------- over runs ----------

  function TimeOf(e: Event): int {
    if e.Register? then 0 else e.now
  }

  /** The last of these events made the request current at a step it was not at before. */
  ghost predicate MovesIt(events: seq<Event>, id: string, compare: (Condition, string) -> bool)
    requires events != []
  {
    var before, after := Run(EMPTY, events[..|events| - 1], compare), Run(EMPTY, events, compare);
    && id in after.requests
    && (id in before.requests ==> before.requests[id].current != after.requests[id].current)
  }

  /** The clock reading of the event that made the request's step current. */
  ghost function LastMove(events: seq<Event>, id: string, compare: (Condition, string) -> bool): Option<int> {
    if events == [] then None
    else if MovesIt(events, id, compare) then Some(TimeOf(events[|events| - 1]))
    else LastMove(events[..|events| - 1], id, compare)
  }

  lemma {:induction false} AllowedPrefix(s: Store, events: seq<Event>, e: Event, compare: (Condition, string) -> bool)
    requires AllowedRun(s, events + [e], compare)
    ensures AllowedRun(s, events, compare) && Allowed(Run(s, events, compare), e)
    decreases |events|
  {
    hide ApplyEvent, Allowed;
    var longer := events + [e];
    if events != [] {
      assert longer[0] == events[0] && longer[1..] == events[1..] + [e];
      AllowedPrefix(ApplyEvent(s, events[0], compare), events[1..], e, compare);
    } else {
      assert longer[0] == e;
    }
  }

  /** Over every run an open request's clock was started by the event that made its step current. */
  lemma {:induction false} ClockStartsWithTheStep(events: seq<Event>, id: string,
                                                  compare: (Condition, string) -> bool)
    requires AllowedRun(EMPTY, events, compare)
    requires id in Run(EMPTY, events, compare).requests
    requires Run(EMPTY, events, compare).requests[id].current.Some?
    ensures Run(EMPTY, events, compare).requests[id].startedAt == LastMove(events, id, compare)
    decreases |events|
  {
    hide AllowedRun, Run;
    if events == [] {
      assert Run(EMPTY, [], compare) == EMPTY by { RunOfNone(compare); }
    } else {
      var front, e := events[..|events| - 1], events[|events| - 1];
      assert events == front + [e];
      AllowedPrefix(EMPTY, front, e, compare);
      RunAppend(EMPTY, front, e, compare);
      RunKeepsInv(EMPTY, front, compare) by { EmptyIsInOrder(compare); }
      var before := Run(EMPTY, front, compare);
      EventMovesClock(before, e, id, compare);
      if id in before.requests && before.requests[id].current.Some? {
        ClockStartsWithTheStep(front, id, compare);
      }
    }
  }

  lemma RunOfNone(compare: (Condition, string) -> bool)
    ensures Run(EMPTY, [], compare) == EMPTY
  {
  }

  lemma EmptyIsInOrder(compare: (Condition, string) -> bool)
    ensures StoreInv(EMPTY, compare)
  {
  }

  lemma EventMovesClock(s: Store, e: Event, id: string, compare: (Condition, string) -> bool)
    requires StoreInv(s, compare) && Allowed(s, e) && id in ApplyEvent(s, e, compare).requests
    ensures var after := ApplyEvent(s, e, compare).requests[id];
            if id in s.requests then ClockFollows(s.requests[id], after, TimeOf(e))
            else after.current.Some? ==> after.startedAt == Some(TimeOf(e))
  {
    hide MatchingStep, Inv, WellFormed, TimedOut, Decided, Submitted, ClockOk, ClockFollows;
    if id in s.requests {
      var r := s.requests[id];
      assert RequestOk(s, r, compare);
      var wf := s.workflows[r.workflowId];
      assert ClockFollows(r, r, TimeOf(e)) by { StandingStill(r, TimeOf(e)); }
      match e
      case Register(_) =>
      case Submit(_, _, _, _) =>
      case Decide(id', approver, verdict, now) =>
        if id == id' && DecideIn(s, id, approver, verdict, now).Ok? {
          DistinctOf(wf);
          DecisionMovesClock(wf, MatchingStep(wf, r.attributes, compare).value, r, approver, verdict, now);
        }
      case CheckTimeouts(now) => TimeoutMovesClock(wf, r, now);
    } else {
      var wf := s.workflows[e.workflowId];
      DistinctOf(wf);
      SubmissionStartsClock(wf, e.attributes, compare, e.now);
    }
  }

  lemma StandingStill(r: Request, now: int)
    ensures ClockFollows(r, r, now)
  {
  }

  /**
   A sweep acts on a request of any run exactly when it is open at a step with a time limit, and more than the
   limit has passed since the event that made the step current.
   */
  lemma DueSinceTheStepBegan(events: seq<Event>, id: string, compare: (Condition, string) -> bool, now: int)
    requires AllowedRun(EMPTY, events, compare) && id in Run(EMPTY, events, compare).requests
    ensures var s := Run(EMPTY, events, compare);
            var r := s.requests[id];
            && r.workflowId in s.workflows
            && var wf := s.workflows[r.workflowId];
               (Overdue(r, Some(wf), now)
                <==> && r.current.Some? && Known(wf, r.current.value) && Timed(At(wf, r.current.value))
                     && LastMove(events, id, compare).Some?
                     && now > LastMove(events, id, compare).value + At(wf, r.current.value).timeoutMinutes.value)
  {
    hide FindStep, Inv, MatchingStep, WellFormed, AllowedRun, Run, LastMove;
    var s := Run(EMPTY, events, compare);
    RunKeepsInv(EMPTY, events, compare) by { EmptyIsInOrder(compare); }
    var r := s.requests[id];
    assert RequestOk(s, r, compare);
    PendingIsOpen(s.workflows[r.workflowId], MatchingStep(s.workflows[r.workflowId], r.attributes, compare).value, r);
    if r.current.Some? {
      ClockStartsWithTheStep(events, id, compare);
    }
  }
}
