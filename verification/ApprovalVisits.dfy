/**
 Which steps an approved request has visited. Steps that share an order with another one, and steps a
 timeout jumps over on its way to an escalation step, are never started.
 */
module ApprovalVisits {
  import opened Wrappers
  import opened Approval
  import opened ApprovalSafety
  import opened ApprovalRuns

  /** No two steps from `from` on share an order. */
  ghost predicate OrdersDistinctFrom(wf: Workflow, from: int) {
    forall s, t :: s in wf.steps && t in wf.steps && from <= s.order == t.order ==> s == t
  }

  ghost predicate VisitedAllFrom(wf: Workflow, from: int, r: Request) {
    forall s :: s in wf.steps && s.order >= from ==> s.id in r.statuses
  }

  ghost predicate NothingJumpedFrom(wf: Workflow, from: int, r: Request)
    requires forall id :: id in r.statuses ==> Known(wf, id)
  {
    forall s {:trigger Jumped(wf, r.statuses, s.order)} ::
      s in wf.steps && s.order >= from ==> !Jumped(wf, r.statuses, s.order)
  }

  /**
   An approved request visited steps from the matching one on only. It visited some step of an order exactly
   when no timeout jumped over that order, and every step exactly when besides no two steps share an order.
   */
  lemma VisitsAllStepsIff(wf: Workflow, r: Request, compare: (Condition, string) -> bool)
    requires Reachable(wf, r, compare) && r.status == Approved
    ensures MatchingStep(wf, r.attributes, compare).Some?
    ensures var from := MatchingStep(wf, r.attributes, compare).value.order;
            && (forall id :: id in r.statuses ==> Known(wf, id) && At(wf, id).order >= from)
            && (forall s :: s in wf.steps && s.order >= from ==> OrderOk(wf, r.statuses, s.order))
            && (VisitedAllFrom(wf, from, r) <==> OrdersDistinctFrom(wf, from) && NothingJumpedFrom(wf, from, r))
  {
    hide FindStep, Votes, NeedAbove, BudgetOk, LeftOk, MatchingStep, Evidence, StatusOk, Waiting, EscalatesForward;
    hide Jumped, Reachable;
    ReachableInv(wf, r, compare);
    var m := MatchingStep(wf, r.attributes, compare).value;
    PendingIsOpen(wf, m, r);
    if OrdersDistinctFrom(wf, m.order) && NothingJumpedFrom(wf, m.order, r) {
      forall s | s in wf.steps && s.order >= m.order ensures s.id in r.statuses {
        assert OrderOk(wf, r.statuses, s.order) && !Jumped(wf, r.statuses, s.order);
        var id :| id in r.statuses.Keys && At(wf, id).order == s.order;
        assert At(wf, id) == s;
      }
    }
    if VisitedAllFrom(wf, m.order, r) {
      forall s, t | s in wf.steps && t in wf.steps && m.order <= s.order == t.order ensures s == t {
        FindStepFinds(wf, s);
        FindStepFinds(wf, t);
      }
      forall s | s in wf.steps && s.order >= m.order ensures !Jumped(wf, r.statuses, s.order) {
        FindStepFinds(wf, s);
        assert s.id in r.statuses.Keys;
        assert OrderOk(wf, r.statuses, s.order);
      }
    }
  }

  // ---------- which workflows always have all their steps visited ----------

  /** The escalation step `e` of a step `a` that can time out comes after `s`, which comes after `a`. */
  ghost predicate Skips(a: Step, e: Step, s: Step) {
    Timed(a) && Escalates(a) && e.id == EscalationId(a.id) && a.order < s.order < e.order
  }

  ghost predicate SkipsNothingFrom(wf: Workflow, from: int) {
    forall a, e, s :: a in wf.steps && e in wf.steps && s in wf.steps && a.order >= from ==> !Skips(a, e, s)
  }

  ghost predicate ApprovalsVisitAll(wf: Workflow, attributes: map<string, string>, from: int,
                                    compare: (Condition, string) -> bool)
  {
    forall r :: Reachable(wf, r, compare) && r.attributes == attributes && r.status == Approved ==>
      VisitedAllFrom(wf, from, r)
  }

  /**
   A workflow has all its steps from the matching one on visited by every approved request exactly when
   those steps have distinct orders and none lies between a step with a time limit and its escalation step.
   */
  lemma AlwaysVisitsAllIff(wf: Workflow, attributes: map<string, string>, compare: (Condition, string) -> bool)
    requires WellFormed(wf) && wf.enabled && MatchingStep(wf, attributes, compare).Some?
    ensures var from := MatchingStep(wf, attributes, compare).value.order;
            ApprovalsVisitAll(wf, attributes, from, compare) <==>
            OrdersDistinctFrom(wf, from) && SkipsNothingFrom(wf, from)
  {
    hide Reachable, MatchingStep, WellFormed, VisitedAllFrom, OrdersDistinctFrom, SkipsNothingFrom;
    var from := MatchingStep(wf, attributes, compare).value.order;
    if OrdersDistinctFrom(wf, from) && SkipsNothingFrom(wf, from) {
      forall r | Reachable(wf, r, compare) && r.attributes == attributes && r.status == Approved
        ensures VisitedAllFrom(wf, from, r)
      {
        VisitsAllStepsIff(wf, r, compare);
        WithoutSkipsNothingJumped(wf, r, compare);
      }
    }
    if ApprovalsVisitAll(wf, attributes, from, compare) {
      var r := SomeApproved(wf, attributes, compare);
      VisitsAllStepsIff(wf, r, compare);
      if !SkipsNothingFrom(wf, from) {
        var skipping, s := SomeSkipping(wf, attributes, compare);
        VisitsAllStepsIff(wf, skipping, compare);
        assert false;
      }
    }
  }

  lemma WithoutSkipsNothingJumped(wf: Workflow, r: Request, compare: (Condition, string) -> bool)
    requires Reachable(wf, r, compare) && r.status == Approved
    requires MatchingStep(wf, r.attributes, compare).Some?
    requires SkipsNothingFrom(wf, MatchingStep(wf, r.attributes, compare).value.order)
    requires forall id :: id in r.statuses ==> Known(wf, id)
    ensures NothingJumpedFrom(wf, MatchingStep(wf, r.attributes, compare).value.order, r)
  {
    hide Reachable, FindStep, MatchingStep, WellFormed, Evidence, Waiting, CoverageOk, BudgetOk, OpenOk;
    ReachableInv(wf, r, compare);
    PendingIsOpen(wf, MatchingStep(wf, r.attributes, compare).value, r);
    var from := MatchingStep(wf, r.attributes, compare).value.order;
    forall s | s in wf.steps && s.order >= from ensures !Jumped(wf, r.statuses, s.order) {
      forall id | id in r.statuses ensures !JumpsOver(wf, r.statuses, id, s.order) {
        if r.statuses[id] == Escalated && EscalationId(id) in r.statuses {
          assert Left(wf, r, id);
          assert !Skips(At(wf, id), At(wf, EscalationId(id)), s);
        }
      }
    }
  }

  /** An approved request, from approvals alone. */
  lemma SomeApproved(wf: Workflow, attributes: map<string, string>, compare: (Condition, string) -> bool)
    returns (r: Request)
    requires WellFormed(wf) && wf.enabled && MatchingStep(wf, attributes, compare).Some?
    ensures Reachable(wf, r, compare) && r.attributes == attributes && r.status == Approved
  {
    hide Reachable, MatchingStep, WellFormed;
    var start := SomeStarted(wf, attributes, compare);
    r := FinishedFrom(wf, start, compare, 0);
  }

  lemma SomeStarted(wf: Workflow, attributes: map<string, string>, compare: (Condition, string) -> bool)
    returns (r: Request)
    requires WellFormed(wf) && wf.enabled && MatchingStep(wf, attributes, compare).Some?
    ensures Reachable(wf, r, compare) && r.attributes == attributes && r.status == Pending
    ensures r.current == Some(MatchingStep(wf, attributes, compare).value.id)
  {
    hide MatchingStep, WellFormed, Reachable;
    r := Submitted(wf, attributes, compare, 0).value;
    SubmittedIsReachable(wf, attributes, compare, 0);
  }

  lemma FinishedFrom(wf: Workflow, start: Request, compare: (Condition, string) -> bool, now: int)
    returns (r: Request)
    requires Reachable(wf, start, compare) && start.status == Pending
    ensures Reachable(wf, r, compare) && r.attributes == start.attributes && r.status == Approved
    ensures forall id, order {:trigger JumpsAt(wf, r, id, order)} ::
              JumpsAt(wf, start, id, order) ==> JumpsAt(wf, r, id, order)
  {
    hide Reachable, JumpsAt;
    var people := seq(NeedOfAll(wf.steps), _ => "approver");
    r := ApprovedBy(start, wf, people, now);
    OpenRequestsCanFinish(wf, start, compare, people, now);
    ApprovedByIsReachable(wf, start, compare, people, now);
    forall id, order | JumpsAt(wf, start, id, order) ensures JumpsAt(wf, r, id, order) {
      ApprovalsKeepJump(wf, start, compare, people, now, id, order);
    }
  }

  ghost predicate JumpsAt(wf: Workflow, r: Request, id: string, order: int) {
    (forall k :: k in r.statuses ==> Known(wf, k)) && id in r.statuses && JumpsOver(wf, r.statuses, id, order)
  }

  /** What a timeout jumped over stays jumped over. */
  lemma {:induction false} ApprovalsKeepJump(wf: Workflow, r: Request, compare: (Condition, string) -> bool,
                                             people: seq<string>, now: int, id: string, order: int)
    requires Reachable(wf, r, compare) && JumpsAt(wf, r, id, order)
    ensures JumpsAt(wf, ApprovedBy(r, wf, people, now), id, order)
    decreases |people|
  {
    hide Reachable, Decided, JumpsAt;
    if people != [] && Decided(r, Some(wf), people[0], Approve, now).Ok? {
      DecidedIsReachable(wf, r, compare, people[0], Approve, now);
      DecisionKeepsJump(wf, r, compare, people[0], now, id, order);
      var next := Decided(r, Some(wf), people[0], Approve, now).value.0;
      ApprovalsKeepJump(wf, next, compare, people[1..], now, id, order);
    }
  }

  lemma DecisionKeepsJump(wf: Workflow, r: Request, compare: (Condition, string) -> bool,
                          approver: string, now: int, id: string, order: int)
    requires Reachable(wf, r, compare) && JumpsAt(wf, r, id, order)
    requires Decided(r, Some(wf), approver, Approve, now).Ok?
    ensures JumpsAt(wf, Decided(r, Some(wf), approver, Approve, now).value.0, id, order)
  {
    hide Reachable, FindStep, Decided, MatchingStep, Waiting, LeftOk, StatusOk, CoverageOk, BudgetOk;
    ReachableInv(wf, r, compare);
    assert r.current != Some(id);
    DecidedIsReachable(wf, r, compare, approver, Approve, now);
    ReachableInv(wf, Decided(r, Some(wf), approver, Approve, now).value.0, compare);
    DecisionLeavesOthers(wf, r, compare, approver, now);
  }

  /** An approval touches the status of the current step and of the step it starts, no other. */
  lemma DecisionLeavesOthers(wf: Workflow, r: Request, compare: (Condition, string) -> bool,
                             approver: string, now: int)
    requires Reachable(wf, r, compare)
    requires Decided(r, Some(wf), approver, Approve, now).Ok?
    ensures var statuses := Decided(r, Some(wf), approver, Approve, now).value.0.statuses;
            && r.statuses.Keys <= statuses.Keys
            && forall k :: k in r.statuses && r.current != Some(k) ==> statuses[k] == r.statuses[k]
  {
    hide Reachable, FindStep, NextStep, MatchingStep, Judged, Waiting, LeftOk, StatusOk, CoverageOk, BudgetOk;
    ReachableInv(wf, r, compare);
    if NextStep(wf, At(wf, r.current.value).order).Some? {
      FindStepFinds(wf, NextStep(wf, At(wf, r.current.value).order).value);
    }
  }

  /** Approve up to the step that can time out, let it, and approve the rest. */
  lemma SomeSkipping(wf: Workflow, attributes: map<string, string>, compare: (Condition, string) -> bool)
    returns (r: Request, s: Step)
    requires WellFormed(wf) && wf.enabled && MatchingStep(wf, attributes, compare).Some?
    requires OrdersDistinctFrom(wf, MatchingStep(wf, attributes, compare).value.order)
    requires !SkipsNothingFrom(wf, MatchingStep(wf, attributes, compare).value.order)
    ensures Reachable(wf, r, compare) && r.attributes == attributes && r.status == Approved
    ensures s in wf.steps && s.order >= MatchingStep(wf, attributes, compare).value.order
    ensures forall k :: k in r.statuses ==> Known(wf, k)
    ensures Jumped(wf, r.statuses, s.order)
  {
    hide Reachable, MatchingStep, WellFormed, OrdersDistinctFrom, JumpsAt;
    var from := MatchingStep(wf, attributes, compare).value.order;
    var a, e, skipped :|
      a in wf.steps && e in wf.steps && skipped in wf.steps && a.order >= from && Skips(a, e, skipped);
    s := skipped;
    var start := SomeStarted(wf, attributes, compare);
    assert Known(wf, start.current.value) && At(wf, start.current.value).order <= a.order by {
      DistinctOf(wf);
      FindStepFinds(wf, MatchingStep(wf, attributes, compare).value);
    }
    var there := ReachesStep(wf, start, compare, a);
    var escalated, late := TimeoutJumps(wf, there, compare, a, e, s);
    r := FinishedFrom(wf, escalated, compare, late);
    assert JumpsAt(wf, r, a.id, s.order);
    assert Jumped(wf, r.statuses, s.order) by { JumpsAtIsJumped(wf, r, a.id, s.order); }
  }

  lemma JumpsAtIsJumped(wf: Workflow, r: Request, id: string, order: int)
    requires JumpsAt(wf, r, id, order)
    ensures forall k :: k in r.statuses ==> Known(wf, k)
    ensures Jumped(wf, r.statuses, order)
  {
  }

  lemma TimeoutJumps(wf: Workflow, there: Request, compare: (Condition, string) -> bool, a: Step, e: Step, s: Step)
    returns (r: Request, late: int)
    requires Reachable(wf, there, compare) && there.status == Pending && there.current == Some(a.id)
    requires a in wf.steps && e in wf.steps && Skips(a, e, s)
    ensures Reachable(wf, r, compare) && r.status == Pending && r.attributes == there.attributes
    ensures JumpsAt(wf, r, a.id, s.order)
  {
    hide Reachable, FindStep, MatchingStep, Waiting, LeftOk, StatusOk, CoverageOk, BudgetOk;
    ReachableInv(wf, there, compare);
    FindStepFinds(wf, a);
    FindStepFinds(wf, e);
    late := if there.expiresAt.value < 0 then 0 else there.expiresAt.value + 1;
    r := TimedOut(there, Some(wf), late);
    TimedOutIsReachable(wf, there, compare, late);
  }

  /** Approvals bring a request to any later step when orders are distinct. */
  lemma {:induction false} ReachesStep(wf: Workflow, start: Request, compare: (Condition, string) -> bool, a: Step)
    returns (r: Request)
    requires Reachable(wf, start, compare) && start.status == Pending && a in wf.steps
    requires start.current.Some? && Known(wf, start.current.value) && At(wf, start.current.value).order <= a.order
    requires MatchingStep(wf, start.attributes, compare).Some?
    requires OrdersDistinctFrom(wf, MatchingStep(wf, start.attributes, compare).value.order)
    ensures Reachable(wf, r, compare) && r.status == Pending && r.current == Some(a.id)
    ensures r.attributes == start.attributes
    decreases Remaining(wf, start)
  {
    hide Reachable, FindStep, NextStep, MatchingStep, Inv, WellFormed, Remaining, Decided, OrdersDistinctFrom;
    ReachableInv(wf, start, compare);
    var m := MatchingStep(wf, start.attributes, compare).value;
    var c := start.current.value;
    if c == a.id {
      r := start;
    } else {
      DistinctOf(wf);
      AcceptedWhenPending(wf, m, start, "approver", 0);
      DecidedIsReachable(wf, start, compare, "approver", Approve, 0);
      DecisionLeavesIdentity(start, wf, "approver", Approve, 0);
      DecisionShortens(wf, m, start, "approver", Approve, 0);
      var next := Decided(start, Some(wf), "approver", Approve, 0).value.0;
      ApprovalStaysBelow(wf, m, start, a);
      ReachableInv(wf, next, compare);
      RemainingIsNonnegative(wf, m, next);
      r := ReachesStep(wf, next, compare, a);
    }
  }

  lemma RemainingIsNonnegative(wf: Workflow, m: Step, r: Request)
    requires Inv(wf, m, r)
    ensures Remaining(wf, r) >= 0
  {
    hide Inv, FindStep;
    if r.current.Some? {
      VotesFitNeed(wf, m, r);
    }
  }

  lemma ApprovalStaysBelow(wf: Workflow, m: Step, r: Request, a: Step)
    requires DistinctIds(wf.steps) && Inv(wf, m, r) && r.status == Pending && a in wf.steps
    requires r.current.Some? && At(wf, r.current.value).order <= a.order && r.current.value != a.id
    requires OrdersDistinctFrom(wf, m.order)
    requires Decided(r, Some(wf), "approver", Approve, 0).Ok?
    ensures var next := Decided(r, Some(wf), "approver", Approve, 0).value.0;
            && next.status == Pending && next.current.Some?
            && Known(wf, next.current.value) && At(wf, next.current.value).order <= a.order
  {
    hide FindStep, NextStep, Votes, LeftOk, StatusOk, CoverageOk, BudgetOk, DistinctIds;
    var step := At(wf, r.current.value);
    assert step.order < a.order;
    var n := NextStep(wf, step.order).value;
    FindStepFinds(wf, n);
    JudgedSoundly(wf, m, r, Decision(step.id, "approver", Approve));
  }
}
