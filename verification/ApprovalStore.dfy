/** The store of the approval engine, event by event, and what makes a workflow take a request. */
module ApprovalStore {
  import opened Wrappers
  import opened Approval

  // ---------- routing ----------

  /** Conditions are asked one by one: each needs its attribute, and none of them can be missed. */
  lemma ConditionsOneByOne(step: Step, attributes: map<string, string>, compare: (Condition, string) -> bool,
                           a: seq<Condition>, b: seq<Condition>, c: Condition)
    ensures ConditionsMatch(step.(conditions := []), attributes, compare)
    ensures ConditionsMatch(step.(conditions := [c]), attributes, compare)
       <==> c.field in attributes && compare(c, attributes[c.field])
    ensures ConditionsMatch(step.(conditions := a + b), attributes, compare)
       <==> ConditionsMatch(step.(conditions := a), attributes, compare)
            && ConditionsMatch(step.(conditions := b), attributes, compare)
  {
    assert c in [c];
    assert forall d :: d in a + b <==> d in a || d in b;
  }

  /** A request is taken exactly by an enabled workflow with a step whose conditions match. */
  lemma TakenIff(wf: Workflow, attributes: map<string, string>, compare: (Condition, string) -> bool, now: int)
    ensures Submitted(wf, attributes, compare, now).Some?
       <==> wf.enabled && MatchingStep(wf, attributes, compare).Some?
    ensures Submitted(wf.(enabled := false), attributes, compare, now).None?
    ensures Submitted(wf, attributes, compare, now).Some? ==>
              var r := Submitted(wf, attributes, compare, now).value;
              r.status == Pending && r.decisions == [] && r.attributes == attributes && r.workflowId == wf.id
  {
    hide MatchingStep, FindStep;
  }

  // ---------- timeouts ----------

  /** A timed-out step without an escalation target, or with an empty one, ends the request; any other does not. */
  lemma EmptyTargetIsNone(wf: Workflow, r: Request, now: int)
    requires Overdue(r, Some(wf), now)
    ensures var target := FindStep(wf, r.current.value).value.escalateTo;
            var after := TimedOut(r, Some(wf), now);
            && (target == None || target == Some("") ==> after.status == Escalated && after.current == None)
            && (target != None && target != Some("") ==> after.status == Pending && after.current.Some?)
  {
    hide FindStep;
  }

  /** A timeout marks the step it is about as escalated, opens the escalation step if there is one, and no other. */
  lemma TimeoutMarks(wf: Workflow, r: Request, now: int)
    requires Overdue(r, Some(wf), now)
    ensures var c := r.current.value;
            var after := TimedOut(r, Some(wf), now);
            && after.decisions == r.decisions
            && after.statuses
               == (if Escalates(FindStep(wf, c).value) && FindStep(wf, EscalationId(c)).Some?
                   then r.statuses[c := Escalated][EscalationId(c) := Pending] else r.statuses[c := Escalated])
            && (after.current.Some? && after.current != r.current ==> after.current == Some(c + "-escalated"))
  {
    hide FindStep;
  }

  // ---------- events ----------

  /** A registration replaces the workflow of that id and leaves everything else. */
  lemma RegisterReplaces(s: Store, wf: Workflow, compare: (Condition, string) -> bool)
    ensures var s' := ApplyEvent(s, Register(wf), compare);
            && wf.id in s'.workflows && s'.workflows[wf.id] == wf && s'.workflows - {wf.id} == s.workflows - {wf.id}
            && s'.requests == s.requests
  {
  }

  /** Which error a decision meets, and that it then changes nothing. */
  lemma DecisionErrors(s: Store, id: string, approver: string, verdict: Verdict, now: int,
                       compare: (Condition, string) -> bool)
    ensures var answer := DecideIn(s, id, approver, verdict, now);
            && (answer == Err(RequestNotFound) <==> id !in s.requests)
            && (id in s.requests ==>
                  var r := s.requests[id];
                  && (answer == Err(WorkflowNotFound) <==> r.workflowId !in s.workflows)
                  && (r.workflowId in s.workflows ==>
                        && (answer == Err(NoActiveStep) <==> r.current.None?)
                        && (answer == Err(StepNotFound) <==>
                              r.current.Some? && FindStep(s.workflows[r.workflowId], r.current.value).None?)))
            && (answer.Err? ==> ApplyEvent(s, Decide(id, approver, verdict, now), compare) == s)
  {
    hide FindStep, NextStep, Judged;
  }

  /** An event touches no other request: a submission and a decision their own, a sweep the overdue ones. */
  lemma OtherRequestsStay(s: Store, e: Event, id: string, compare: (Condition, string) -> bool)
    requires id in s.requests
    requires match e
             case Submit(requestId, _, _, _) => requestId != id
             case Decide(requestId, _, _, _) => requestId != id
             case CheckTimeouts(now) => !Overdue(s.requests[id], Lookup(s.workflows, s.requests[id].workflowId), now)
             case Register(_) => true
    ensures var s' := ApplyEvent(s, e, compare);
            && id in s'.requests && s'.requests[id] == s.requests[id]
            && (!e.Register? ==> s'.workflows == s.workflows)
  {
    hide MatchingStep, FindStep, NextStep, Judged;
  }

  /** A submission stores what the workflow made of it, or nothing if there is no such workflow or it took nothing. */
  lemma SubmissionIsStored(s: Store, id: string, wfId: string, attributes: map<string, string>, now: int,
                           compare: (Condition, string) -> bool)
    ensures var s' := ApplyEvent(s, Submit(id, wfId, attributes, now), compare);
            if wfId in s.workflows && Submitted(s.workflows[wfId], attributes, compare, now).Some?
            then id in s'.requests && Some(s'.requests[id]) == Submitted(s.workflows[wfId], attributes, compare, now)
            else s' == s
  {
    hide MatchingStep, FindStep;
  }
}
