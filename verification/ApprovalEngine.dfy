/**
 The approval engine as the source has it: request objects updated in place and kept in dictionaries
 (apps/governance/approval/engine.py). Every method is proved to move the store as `Approval.ApplyEvent` says.
 */
module ApprovalEngine {
  import opened Wrappers
  import opened Sorting
  import opened Approval

  class ApprovalRequest {
    const workflowId: string
    const attributes: map<string, string>
    var currentStepId: Option<string>
    var stepStatuses: map<string, Status>
    var decisions: seq<Decision>
    var status: Status
    var stepStartedAt: Option<int>
    var expiresAt: Option<int>

    constructor (workflowId: string, attributes: map<string, string>)
      ensures View() == Request(workflowId, attributes, None, map[], [], Pending, None, None)
    {
      this.workflowId := workflowId;
      this.attributes := attributes;
      currentStepId := None;
      stepStatuses := map[];
      decisions := [];
      status := Pending;
      stepStartedAt := None;
      expiresAt := None;
    }

    ghost function View(): Request
      reads this
    {
      Request(workflowId, attributes, currentStepId, stepStatuses, decisions, status, stepStartedAt, expiresAt)
    }

    method StartStep(stepId: string, workflow: Workflow, now: int)
      modifies this
      ensures View() == Approval.StartStep(old(View()), stepId, workflow, now)
    {
      var found := FindStep(workflow, stepId);
      if found.None? {
        return;
      }
      var step := found.value;
      currentStepId := Some(stepId);
      stepStatuses := stepStatuses[stepId := Pending];
      stepStartedAt := Some(now);
      if Timed(step) {
        expiresAt := Some(now + step.timeoutMinutes.value);
      } else {
        expiresAt := None;
      }
    }

    method CompleteStep(workflow: Workflow, now: int) returns (nextId: Option<string>)
      modifies this
      ensures (View(), nextId) == Approval.CompleteStep(old(View()), workflow, now)
    {
      if currentStepId.None? {
        return None;
      }
      var id := currentStepId.value;
      var currentStatus := if id in stepStatuses then stepStatuses[id] else Pending;
      if currentStatus == Pending {
        stepStatuses := stepStatuses[id := Skipped];
      }
      var current := FindStep(workflow, id);
      var order := if current.Some? then current.value.order else 0;
      var next := NextStep(workflow, order);
      if next.Some? {
        StartStep(next.value.id, workflow, now);
        return Some(next.value.id);
      }
      return None;
    }

    /** The body of the sweep's loop, with the filter that selects pending, expired requests. */
    method TimeOut(workflow: Option<Workflow>, now: int) returns (acted: bool)
      modifies this
      ensures View() == TimedOut(old(View()), workflow, now)
      ensures acted <==> Overdue(old(View()), workflow, now)
    {
      hide FindStep;
      if status != Pending || expiresAt.None? || now <= expiresAt.value {
        return false;
      }
      if workflow.None? || currentStepId.None? {
        return false;
      }
      var id := currentStepId.value;
      var step := FindStep(workflow.value, id);
      if step.None? {
        return false;
      }
      stepStatuses := stepStatuses[id := Escalated];
      if Escalates(step.value) {
        StartStep(EscalationId(id), workflow.value, now);
      } else {
        status := Escalated;
        currentStepId := None;
      }
      return true;
    }
  }

  class Engine {
    const compare: (Condition, string) -> bool
    var workflows: map<string, Workflow>
    var requests: map<string, ApprovalRequest>
    var order: seq<string>   // the keys of `requests` in the order they were submitted

    constructor (compare: (Condition, string) -> bool)
      ensures Valid() && View() == EMPTY
    {
      this.compare := compare;
      workflows := map[];
      requests, order := map[], [];
    }

    /** Different ids name different objects, and each id is listed once. */
    ghost predicate Valid()
      reads this
    {
      && (forall a, b :: a in requests && b in requests && a != b ==> requests[a] != requests[b])
      && (forall id :: id in requests <==> id in order)
      && (forall i, j :: 0 <= i < j < |order| ==> order[i] != order[j])
    }

    ghost function Objects(): set<ApprovalRequest>
      reads this
    {
      set id | id in requests :: requests[id]
    }

    ghost function View(): Store
      reads this, Objects()
    {
      Store(workflows, map id | id in requests :: requests[id].View())
    }

    method RegisterWorkflow(workflow: Workflow)
      requires Valid()
      modifies this`workflows
      ensures Valid()
      ensures View() == ApplyEvent(old(View()), Register(workflow), compare)
    {
      workflows := workflows[workflow.id := workflow];
    }

    /** `requestId` is the fresh id the source draws at random. */
    method SubmitApprovalRequest(requestId: string, workflowId: string, attributes: map<string, string>, now: int)
      returns (submitted: Option<ApprovalRequest>)
      requires Valid() && requestId !in requests
      modifies this
      ensures Valid()
      ensures View() == ApplyEvent(old(View()), Submit(requestId, workflowId, attributes, now), compare)
      ensures submitted.Some? <==> requestId in requests
      ensures submitted.Some? ==> requests[requestId] == submitted.value
    {
      hide MatchingStep, FindStep, ConditionsMatch, Approval.StartStep;
      if workflowId !in workflows || !workflows[workflowId].enabled {
        return None;
      }
      var workflow := workflows[workflowId];
      var matching := MatchingStep(workflow, attributes, compare);
      if matching.None? {
        return None;
      }
      var request := new ApprovalRequest(workflow.id, attributes);
      request.StartStep(matching.value.id, workflow, now);
      Keep(requestId, request);
      return Some(request);
    }

    method Keep(requestId: string, request: ApprovalRequest)
      requires Valid() && requestId !in requests && request !in Objects()
      modifies this`requests, this`order
      ensures Valid()
      ensures requests == old(requests)[requestId := request] && order == old(order) + [requestId]
      ensures View() == old(View()).(requests := old(View()).requests[requestId := request.View()])
    {
      requests, order := requests[requestId := request], order + [requestId];
      assert View().requests == old(View()).requests[requestId := request.View()];
    }

    method ProcessDecision(requestId: string, approver: string, verdict: Verdict, now: int)
      returns (r: Result<Response, DecisionError>)
      requires Valid()
      modifies Objects()
      ensures Valid()
      ensures View() == ApplyEvent(old(View()), Decide(requestId, approver, verdict, now), compare)
      ensures match DecideIn(old(View()), requestId, approver, verdict, now)
              case Err(e) => r == Err(e) && View() == old(View())
              case Ok(outcome) => r == Ok(outcome.1)
    {
      if requestId !in requests {
        return Err(RequestNotFound);
      }
      var request := requests[requestId];
      if request.workflowId !in workflows {
        return Err(WorkflowNotFound);
      }
      var workflow := workflows[request.workflowId];
      if request.currentStepId.None? {
        return Err(NoActiveStep);
      }
      var stepId := request.currentStepId.value;
      var found := FindStep(workflow, stepId);
      if found.None? {
        return Err(StepNotFound);
      }
      var step := found.value;
      ghost var before := View();
      r := RecordAndMove(request, step, workflow, approver, verdict, now);
      assert View().requests == before.requests[requestId := request.View()];
    }

    /** The part of `process_decision` after the lookups: record, judge, and move on. */
    static method RecordAndMove(request: ApprovalRequest, step: Step, workflow: Workflow,
                                approver: string, verdict: Verdict, now: int)
      returns (r: Result<Response, DecisionError>)
      requires request.currentStepId == Some(step.id) && FindStep(workflow, step.id) == Some(step)
      modifies request
      ensures match Decided(old(request.View()), Some(workflow), approver, verdict, now)
              case Err(_) => false
              case Ok(outcome) => request.View() == outcome.0 && r == Ok(outcome.1)
    {
      hide FindStep, NextStep, Votes;
      var stepId := step.id;
      request.decisions := request.decisions + [Decision(stepId, approver, verdict)];
      if step.nodeType == And {
        var approvedCount := Votes(request.decisions, stepId, Approve);
        var rejectedCount := Votes(request.decisions, stepId, Reject);
        if rejectedCount > 0 {
          request.stepStatuses := request.stepStatuses[stepId := Rejected];
        } else if approvedCount >= |step.approvers| {
          request.stepStatuses := request.stepStatuses[stepId := Approved];
        }
      } else {
        request.stepStatuses := request.stepStatuses[stepId := if verdict == Approve then Approved else Rejected];
      }
      var stepStatus := if stepId in request.stepStatuses then request.stepStatuses[stepId] else Pending;
      if stepStatus != Approved && stepStatus != Rejected {
        return Ok(Response(None, false));
      }
      if stepStatus == Approved {
        var next := request.CompleteStep(workflow, now);
        if next.None? {
          request.status := Approved;
          request.currentStepId := None;
        } else {
          request.status := Pending;
        }
      } else {
        request.status := Rejected;
        request.currentStepId := None;
      }
      return Ok(Response(request.currentStepId, request.currentStepId.None?));
    }

    /** Returns the ids of the requests it escalated, in the order they were submitted. */
    method CheckTimeouts(now: int) returns (escalated: seq<string>)
      requires Valid()
      modifies Objects()
      ensures Valid()
      ensures View() == ApplyEvent(old(View()), Approval.CheckTimeouts(now), compare)
      ensures escalated == Filter(order, IsOverdue(old(View()), now))
    {
      hide SweptAt, IsOverdue;
      ghost var before := View();
      escalated := Sweep(before, now);
      assert View().requests == map id | id in requests :: SweptAt(before, id, now);
      SweepIsStep(before, now, compare);
    }

    method Sweep(ghost before: Store, now: int) returns (escalated: seq<string>)
      requires Valid() && before == View()
      modifies Objects()
      ensures forall id :: id in requests ==> requests[id].View() == SweptAt(before, id, now)
      ensures escalated == Filter(order, IsOverdue(before, now))
    {
      hide SweptAt, IsOverdue, Filter, Rest, SweptBut, Valid;
      escalated := [];
      SweepStarts(before, now);
      for i := 0 to |order|
        invariant SweptBut(before, Rest(order, i), now)
        invariant escalated == Filter(order[..i], IsOverdue(before, now))
      {
        SweepGoesOn(i);
        var acted := SweepNext(order[i], Rest(order, i + 1), before, now);
        FilterNext(order, i, IsOverdue(before, now));
        if acted {
          escalated := escalated + [order[i]];
        }
      }
      assert order[..|order|] == order;
      SweptAll(before, now);
    }

    lemma SweepStarts(before: Store, now: int)
      requires Valid() && before == View()
      ensures SweptBut(before, Rest(order, 0), now) && Filter(order[..0], IsOverdue(before, now)) == []
    {
    }

    lemma SweepGoesOn(i: nat)
      requires Valid() && i < |order|
      ensures order[i] in requests && order[i] !in Rest(order, i + 1)
      ensures Rest(order, i) == Rest(order, i + 1) + {order[i]}
    {
    }

    /** All requests but these have been swept. */
    ghost predicate SweptBut(before: Store, rest: set<string>, now: int)
      reads this, Objects()
    {
      && before.workflows == workflows && before.requests.Keys == requests.Keys
      && forall id :: id in requests ==>
           requests[id].View() == if id in rest then before.requests[id] else SweptAt(before, id, now)
    }

    lemma SweptAll(before: Store, now: int)
      requires SweptBut(before, Rest(order, |order|), now)
      ensures forall id :: id in requests ==> id in before.requests && requests[id].View() == SweptAt(before, id, now)
    {
    }

    method SweepNext(id: string, ghost rest: set<string>, ghost before: Store, now: int) returns (acted: bool)
      requires Valid() && id in requests && id !in rest && SweptBut(before, rest + {id}, now)
      modifies Objects()
      ensures SweptBut(before, rest, now)
      ensures acted <==> IsOverdue(before, now)(id)
    {
      hide SweptAt, IsOverdue;
      acted := SweepOne(id, before, now);
    }

    method SweepOne(id: string, ghost before: Store, now: int) returns (acted: bool)
      requires Valid() && id in requests
      requires before.workflows == workflows && before.requests.Keys == requests.Keys
      requires requests[id].View() == before.requests[id]
      modifies requests[id]
      ensures requests[id].View() == SweptAt(before, id, now)
      ensures acted <==> IsOverdue(before, now)(id)
      ensures forall k :: k in requests && k != id ==> requests[k].View() == old(requests[k].View())
    {
      hide TimedOut, Overdue;
      acted := requests[id].TimeOut(Lookup(workflows, requests[id].workflowId), now);
    }
  }

  lemma SweepIsStep(s: Store, now: int, compare: (Condition, string) -> bool)
    ensures ApplyEvent(s, Approval.CheckTimeouts(now), compare)
         == s.(requests := map id | id in s.requests :: SweptAt(s, id, now))
  {
    hide TimedOut;
    assert ApplyEvent(s, Approval.CheckTimeouts(now), compare).requests
        == map id | id in s.requests :: SweptAt(s, id, now);
  }

  ghost function IsOverdue(s: Store, now: int): string -> bool {
    (id: string) =>
      id in s.requests && Overdue(s.requests[id], Lookup(s.workflows, s.requests[id].workflowId), now)
  }

  /** The ids a sweep still has to look at. */
  ghost function Rest(ids: seq<string>, i: nat): set<string> {
    set j | i <= j < |ids| :: ids[j]
  }

  lemma FilterNext(ids: seq<string>, i: nat, p: string -> bool)
    requires i < |ids|
    ensures Filter(ids[..i + 1], p) == if p(ids[i]) then Filter(ids[..i], p) + [ids[i]] else Filter(ids[..i], p)
  {
    assert ids[..i + 1] == ids[..i] + [ids[i]];
    FilterAppend(ids[..i], [ids[i]], p);
  }

  ghost function SweptAt(s: Store, id: string, now: int): Request
    requires id in s.requests
  {
    TimedOut(s.requests[id], Lookup(s.workflows, s.requests[id].workflowId), now)
  }
}
