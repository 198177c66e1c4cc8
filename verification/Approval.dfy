/**
 The approval workflow engine on values: what one submission, one decision and one timeout
 sweep do to a request (apps/governance/approval/engine.py and models.py).
 `ApprovalEngine.dfy` holds the objects that are updated in place and are proved against
 these functions; `ApprovalSafety.dfy` proves what every run keeps.

 Time is an integer number of minutes handed in by the caller. The comparison of one attribute
 with one condition is the parameter `compare`.
 */
module Approval {
  import opened Wrappers
  import opened Sorting

  datatype NodeType = Single | And | Or

  datatype Status = Pending | Approved | Rejected | Escalated | Cancelled | Skipped

  // The three values of the source's ApprovalResult.
  datatype Verdict = Approve | Reject | Escalate

  datatype Condition = Condition(field: string, operator: string, operand: string)

  datatype Step = Step(
    id: string,
    nodeType: NodeType,
    approvers: seq<string>,
    timeoutMinutes: Option<int>,
    escalateTo: Option<string>,
    conditions: seq<Condition>,
    order: int)

  datatype Workflow = Workflow(id: string, steps: seq<Step>, enabled: bool)

  datatype Decision = Decision(stepId: string, approver: string, verdict: Verdict)

  datatype Request = Request(
    workflowId: string,
    attributes: map<string, string>,
    current: Option<string>,
    statuses: map<string, Status>,
    decisions: seq<Decision>,
    status: Status,
    startedAt: Option<int>,
    expiresAt: Option<int>)

  datatype Response = Response(nextStep: Option<string>, isFinal: bool)

  datatype DecisionError = RequestNotFound | WorkflowNotFound | NoActiveStep | StepNotFound

  // ---------- routing ----------

  function OrderKey(): Step -> real {
    (s: Step) => s.order as real
  }

  function FindStep(wf: Workflow, id: string): (r: Option<Step>)
    ensures r.Some? ==> r.value in wf.steps && r.value.id == id
    ensures r.None? ==> forall s :: s in wf.steps ==> s.id != id
  {
    FirstWhere(wf.steps, (s: Step) => s.id == id)
  }

  predicate ConditionsMatch(step: Step, attributes: map<string, string>, compare: (Condition, string) -> bool) {
    forall c :: c in step.conditions ==> c.field in attributes && compare(c, attributes[c.field])
  }

  function MatchingStep(wf: Workflow, attributes: map<string, string>, compare: (Condition, string) -> bool)
    : (r: Option<Step>)
    ensures r.Some? ==> r.value in wf.steps
  {
    SortSorts(wf.steps, OrderKey());
    FirstWhere(Sort(wf.steps, OrderKey()), (s: Step) => ConditionsMatch(s, attributes, compare))
  }

  function NextStep(wf: Workflow, order: int): (r: Option<Step>)
    ensures r.Some? ==> r.value in wf.steps && r.value.order > order
    ensures r.Some? ==> forall s :: s in wf.steps && s.order > order ==> r.value.order <= s.order
    ensures r.None? ==> forall s :: s in wf.steps ==> s.order <= order
  {
    SortSorts(wf.steps, OrderKey());
    var later := (s: Step) => s.order > order;
    FirstOfSorted(wf.steps, OrderKey(), later);
    FirstWhere(Sort(wf.steps, OrderKey()), later)
  }

  // ---------- one request ----------

  /** `_start_step`: an id that is no step of the workflow changes nothing. */
  function StartStep(r: Request, id: string, wf: Workflow, now: int): Request {
    match FindStep(wf, id)
    case None => r
    case Some(step) =>
      r.(current := Some(id),
         statuses := r.statuses[id := Pending],
         startedAt := Some(now),
         expiresAt := if Timed(step) then Some(now + step.timeoutMinutes.value) else None)
  }

  /** A time limit of zero minutes is no limit, as none is. */
  predicate Timed(step: Step) {
    step.timeoutMinutes.Some? && step.timeoutMinutes.value != 0
  }

  function StatusOf(r: Request, id: string): Status {
    if id in r.statuses then r.statuses[id] else Pending
  }

  /** `_complete_step`: the request after moving on, and the id of the step it moved to. */
  function CompleteStep(r: Request, wf: Workflow, now: int): (Request, Option<string>) {
    match r.current
    case None => (r, None)
    case Some(id) =>
      var closed := if StatusOf(r, id) == Pending then r.(statuses := r.statuses[id := Skipped]) else r;
      var order := match FindStep(wf, id) case Some(s) => s.order case None => 0;
      match NextStep(wf, order)
      case Some(next) => (StartStep(closed, next.id, wf, now), Some(next.id))
      case None => (closed, None)
  }

  function NewRequest(wf: Workflow, attributes: map<string, string>): Request {
    Request(wf.id, attributes, None, map[], [], Pending, None, None)
  }

  function Submitted(wf: Workflow, attributes: map<string, string>, compare: (Condition, string) -> bool, now: int)
    : Option<Request>
  {
    if !wf.enabled then None else
      match MatchingStep(wf, attributes, compare)
      case None => None
      case Some(step) => Some(StartStep(NewRequest(wf, attributes), step.id, wf, now))
  }

  function Votes(decisions: seq<Decision>, id: string, verdict: Verdict): nat {
    if decisions == [] then 0 else
      (if decisions[0].stepId == id && decisions[0].verdict == verdict then 1 else 0)
      + Votes(decisions[1..], id, verdict)
  }

  /** The status the current step has once `verdict` is the last of `decisions`. */
  function Judged(step: Step, decisions: seq<Decision>, verdict: Verdict, before: Status): Status {
    match step.nodeType
    case And =>
      if Votes(decisions, step.id, Reject) > 0 then Rejected
      else if Votes(decisions, step.id, Approve) >= |step.approvers| then Approved
      else before
    case _ => if verdict == Approve then Approved else Rejected
  }

  /** `process_decision` for a request that exists; every error leaves the request as it was. */
  function Decided(r: Request, wf: Option<Workflow>, approver: string, verdict: Verdict, now: int)
    : Result<(Request, Response), DecisionError>
  {
    if wf.None? then Err(WorkflowNotFound)
    else if r.current.None? then Err(NoActiveStep)
    else
      var id := r.current.value;
      match FindStep(wf.value, id)
      case None => Err(StepNotFound)
      case Some(step) =>
        var decisions := r.decisions + [Decision(id, approver, verdict)];
        var judged := Judged(step, decisions, verdict, StatusOf(r, id));
        if judged != Approved && judged != Rejected then
          Ok((r.(decisions := decisions), Response(None, false)))
        else
          var marked := r.(decisions := decisions, statuses := r.statuses[id := judged]);
          var after :=
            if judged == Rejected then marked.(status := Rejected, current := None)
            else
              var (moved, next) := CompleteStep(marked, wf.value, now);
              if next.None? then moved.(status := Approved, current := None) else moved.(status := Pending);
          Ok((after, Response(after.current, after.current.None?)))
  }

  function EscalationId(id: string): string {
    id + "-escalated"
  }

  predicate Escalates(step: Step) {
    step.escalateTo.Some? && step.escalateTo.value != ""
  }

  /** The requests one sweep of `check_timeouts` acts on. */
  predicate Overdue(r: Request, wf: Option<Workflow>, now: int) {
    && r.status == Pending
    && r.expiresAt.Some? && now > r.expiresAt.value
    && wf.Some? && r.current.Some?
    && FindStep(wf.value, r.current.value).Some?
  }

  function TimedOut(r: Request, wf: Option<Workflow>, now: int): Request {
    if !Overdue(r, wf, now) then r else
      var id := r.current.value;
      var marked := r.(statuses := r.statuses[id := Escalated]);
      if Escalates(FindStep(wf.value, id).value)
      then StartStep(marked, EscalationId(id), wf.value, now)
      else marked.(status := Escalated, current := None)
  }

  // ---------- the whole store ----------

  datatype Store = Store(workflows: map<string, Workflow>, requests: map<string, Request>)

  datatype Event =
    | Register(wf: Workflow)
    | Submit(requestId: string, workflowId: string, attributes: map<string, string>, now: int)
    | Decide(requestId: string, approver: string, verdict: Verdict, now: int)
    | CheckTimeouts(now: int)

  function Lookup<V>(m: map<string, V>, k: string): Option<V> {
    if k in m then Some(m[k]) else None
  }

  function DecideIn(s: Store, id: string, approver: string, verdict: Verdict, now: int)
    : Result<(Request, Response), DecisionError>
  {
    if id !in s.requests then Err(RequestNotFound)
    else Decided(s.requests[id], Lookup(s.workflows, s.requests[id].workflowId), approver, verdict, now)
  }

  function ApplyEvent(s: Store, e: Event, compare: (Condition, string) -> bool): Store {
    match e
    case Register(wf) => s.(workflows := s.workflows[wf.id := wf])
    case Submit(id, wfId, attributes, now) =>
      if wfId !in s.workflows then s else
        (match Submitted(s.workflows[wfId], attributes, compare, now)
         case None => s
         case Some(r) => s.(requests := s.requests[id := r]))
    case Decide(id, approver, verdict, now) =>
      (match DecideIn(s, id, approver, verdict, now)
       case Err(_) => s
       case Ok(outcome) => s.(requests := s.requests[id := outcome.0]))
    case CheckTimeouts(now) =>
      s.(requests := map id | id in s.requests ::
           TimedOut(s.requests[id], Lookup(s.workflows, s.requests[id].workflowId), now))
  }

  function Run(s: Store, events: seq<Event>, compare: (Condition, string) -> bool): Store
    decreases |events|
  {
    if events == [] then s else Run(ApplyEvent(s, events[0], compare), events[1..], compare)
  }

  const EMPTY := Store(map[], map[])
}
