/**
 Requests that can go round in a circle. Nothing makes an escalation step come after the step it stands in
 for; when one does not, a request can take any number of approvals.
 */
module ApprovalLoops {
  import opened Wrappers
  import opened Approval
  import opened ApprovalSafety

  // ---------- runs of one request ----------

  datatype Move = Vote(approver: string, verdict: Verdict, now: int) | Sweep(now: int)

  function After(r: Request, wf: Workflow, move: Move): Request {
    match move
    case Sweep(now) => TimedOut(r, Some(wf), now)
    case Vote(approver, verdict, now) =>
      match Decided(r, Some(wf), approver, verdict, now)
      case Err(_) => r
      case Ok(outcome) => outcome.0
  }

  function Play(r: Request, wf: Workflow, moves: seq<Move>): Request
    decreases |moves|
  {
    if moves == [] then r else Play(After(r, wf, moves[0]), wf, moves[1..])
  }

  lemma {:induction false} PlayAppend(r: Request, wf: Workflow, a: seq<Move>, b: seq<Move>)
    ensures Play(r, wf, a + b) == Play(Play(r, wf, a), wf, b)
    decreases |a|
  {
    hide After;
    if a == [] {
      assert a + b == b;
    } else {
      assert (a + b)[0] == a[0] && (a + b)[1..] == a[1..] + b;
      PlayAppend(After(r, wf, a[0]), wf, a[1..], b);
    }
  }

  // ---------- where a request can go ----------

  ghost predicate ByApproval(wf: Workflow, s: Step, t: Step) {
    NextStep(wf, s.order) == Some(t)
  }

  ghost predicate ByTimeout(wf: Workflow, s: Step, t: Step) {
    Timed(s) && Escalates(s) && FindStep(wf, EscalationId(s.id)) == Some(t)
  }

  /** Steps of the workflow, each of which leads to the next. */
  ghost predicate Trail(wf: Workflow, p: seq<Step>) {
    && p != []
    && (forall i :: 0 <= i < |p| ==> p[i] in wf.steps)
    && forall i :: 0 <= i < |p| - 1 ==> ByApproval(wf, p[i], p[i + 1]) || ByTimeout(wf, p[i], p[i + 1])
  }

  ghost predicate NoRepeat(p: seq<Step>) {
    forall i, j :: 0 <= i < j < |p| ==> p[i] != p[j]
  }

  /** From step `m` on, no way leads back to a step it has passed. */
  ghost predicate NoWayBack(wf: Workflow, m: Step) {
    forall p :: Trail(wf, p) && p[0] == m ==> NoRepeat(p)
  }

  lemma TrailExtends(wf: Workflow, p: seq<Step>, t: Step)
    requires Trail(wf, p) && t in wf.steps
    requires ByApproval(wf, p[|p| - 1], t) || ByTimeout(wf, p[|p| - 1], t)
    ensures Trail(wf, p + [t])
  {
  }

  /** Where escalation steps come later than the steps they stand in for, there is no way back. */
  lemma ForwardHasNoWayBack(wf: Workflow, m: Step)
    requires EscalatesForward(wf.steps)
    ensures NoWayBack(wf, m)
  {
    forall p | Trail(wf, p) && p[0] == m ensures NoRepeat(p) {
      forall i, j | 0 <= i < j < |p| ensures p[i] != p[j] {
        TrailRises(wf, p, i, j);
      }
    }
  }

  lemma {:induction false} TrailRises(wf: Workflow, p: seq<Step>, i: nat, j: nat)
    requires EscalatesForward(wf.steps) && Trail(wf, p) && i < j < |p|
    ensures p[i].order < p[j].order
    decreases j
  {
    assert p[j - 1].order < p[j].order;
    if i < j - 1 {
      TrailRises(wf, p, i, j - 1);
    }
  }

  // ---------- no way back: approvals are bounded ----------

  /** What every run keeps when no step is visited twice: `p` is the way the request has gone. */
  ghost predicate OnTrail(wf: Workflow, r: Request, p: seq<Step>) {
    && Trail(wf, p)
    && (forall i :: 0 <= i < |r.decisions| ==> exists k :: 0 <= k < |p| && p[k].id == r.decisions[i].stepId)
    && (forall s :: s in wf.steps ==> Votes(r.decisions, s.id, Approve) <= Need(s))
    && (r.current.Some? ==>
          var s := p[|p| - 1];
          && r.current == Some(s.id) && Votes(r.decisions, s.id, Approve) < Need(s)
          && StatusOf(r, s.id) in {Pending, Escalated})
  }

  ghost function SumVotes(ds: seq<Decision>, steps: seq<Step>): nat {
    if steps == [] then 0 else Votes(ds, steps[0].id, Approve) + SumVotes(ds, steps[1..])
  }

  ghost predicate Listed(steps: seq<Step>, id: string) {
    exists s :: s in steps && s.id == id
  }

  lemma {:induction false} SumVotesFits(ds: seq<Decision>, steps: seq<Step>)
    requires forall s :: s in steps ==> Votes(ds, s.id, Approve) <= Need(s)
    ensures SumVotes(ds, steps) <= NeedOfAll(steps)
  {
    if steps != [] {
      SumVotesFits(ds, steps[1..]);
    }
  }

  lemma {:induction false} SumVotesCounts(d: Decision, ds: seq<Decision>, steps: seq<Step>)
    ensures SumVotes([d] + ds, steps) >= SumVotes(ds, steps)
    ensures d.verdict == Approve && Listed(steps, d.stepId) ==>
              SumVotes([d] + ds, steps) > SumVotes(ds, steps)
  {
    assert ([d] + ds)[1..] == ds;
    if steps != [] {
      SumVotesCounts(d, ds, steps[1..]);
      assert forall s :: s in steps <==> s == steps[0] || s in steps[1..];
    }
  }

  /** Votes for known steps, no step having more than it needs, are no more than all steps need. */
  lemma {:induction false} ApprovalsFit(ds: seq<Decision>, steps: seq<Step>)
    requires forall i :: 0 <= i < |ds| ==> Listed(steps, ds[i].stepId)
    ensures Approvals(ds) <= SumVotes(ds, steps)
  {
    if ds != [] {
      assert forall i :: 0 <= i < |ds[1..]| ==> ds[1..][i] == ds[i + 1];
      ApprovalsFit(ds[1..], steps);
      SumVotesCounts(ds[0], ds[1..], steps);
      assert [ds[0]] + ds[1..] == ds;
    }
  }

  lemma OnTrailFits(wf: Workflow, r: Request, p: seq<Step>)
    requires OnTrail(wf, r, p)
    ensures Approvals(r.decisions) <= NeedOfAll(wf.steps)
  {
    forall i | 0 <= i < |r.decisions| ensures Listed(wf.steps, r.decisions[i].stepId) {
      var k :| 0 <= k < |p| && p[k].id == r.decisions[i].stepId;
      assert p[k] in wf.steps;
    }
    ApprovalsFit(r.decisions, wf.steps);
    SumVotesFits(r.decisions, wf.steps);
  }

  /** A request that goes on to a step it has not been at finds no votes for it there. */
  lemma MovesToFreshStep(wf: Workflow, m: Step, before: Request, p: seq<Step>, t: Step, now: int)
    requires DistinctIds(wf.steps) && NoWayBack(wf, m) && Trail(wf, p) && p[0] == m && t in wf.steps
    requires ByApproval(wf, p[|p| - 1], t) || ByTimeout(wf, p[|p| - 1], t)
    requires forall i :: 0 <= i < |before.decisions| ==>
               exists k :: 0 <= k < |p| && p[k].id == before.decisions[i].stepId
    requires forall s :: s in wf.steps ==> Votes(before.decisions, s.id, Approve) <= Need(s)
    ensures OnTrail(wf, StartStep(before, t.id, wf, now), p + [t])
  {
    hide Votes, ByApproval, ByTimeout;
    var q := p + [t];
    assert Trail(wf, q) by { TrailExtends(wf, p, t); }
    assert q[0] == m && NoRepeat(q);
    FindStepFinds(wf, t);
    forall i | 0 <= i < |before.decisions|
      ensures before.decisions[i].stepId != t.id && exists k :: 0 <= k < |q| && q[k].id == before.decisions[i].stepId
    {
      var k :| 0 <= k < |p| && p[k].id == before.decisions[i].stepId;
      assert q[k] == p[k] && q[|p|] == t && q[k] != q[|p|];
      FindStepFinds(wf, p[k]);
    }
    NoVotes(before.decisions, t.id);
  }

  lemma SweepStaysOnTrail(wf: Workflow, m: Step, r: Request, p: seq<Step>, now: int) returns (q: seq<Step>)
    requires DistinctIds(wf.steps) && NoWayBack(wf, m) && OnTrail(wf, r, p) && p[0] == m && ClockOk(wf, r)
    ensures OnTrail(wf, TimedOut(r, Some(wf), now), q) && q[0] == m
  {
    hide Votes, FindStep, NoWayBack, DistinctIds, Trail;
    q := p;
    LastOfTrail(wf, p);
    if Overdue(r, Some(wf), now) {
      var s := p[|p| - 1];
      FindStepFinds(wf, s);
      if Escalates(s) && Known(wf, EscalationId(s.id)) {
        q := p + [At(wf, EscalationId(s.id))];
        MovesToFreshStep(wf, m, r.(statuses := r.statuses[s.id := Escalated]), p, At(wf, EscalationId(s.id)), now);
      }
    }
  }

  lemma LastOfTrail(wf: Workflow, p: seq<Step>)
    requires Trail(wf, p)
    ensures p != [] && p[|p| - 1] in wf.steps
  {
  }

  lemma VoteStaysOnTrail(wf: Workflow, m: Step, r: Request, p: seq<Step>, approver: string, verdict: Verdict, now: int)
    returns (q: seq<Step>)
    requires DistinctIds(wf.steps) && NoWayBack(wf, m) && OnTrail(wf, r, p) && p[0] == m
    requires Decided(r, Some(wf), approver, verdict, now).Ok?
    ensures OnTrail(wf, Decided(r, Some(wf), approver, verdict, now).value.0, q) && q[0] == m
  {
    hide Votes, FindStep, NextStep, NoWayBack, DistinctIds, Trail;
    q := p;
    LastOfTrail(wf, p);
    var s := p[|p| - 1];
    FindStepFinds(wf, s);
    var d := Decision(s.id, approver, verdict);
    var ds := r.decisions + [d];
    BallotsAppend(r.decisions, d);
    assert forall t :: t in wf.steps ==> Votes(ds, t.id, Approve) <= Need(t) by {
      forall t | t in wf.steps ensures Votes(ds, t.id, Approve) <= Need(t) {
        if t.id == s.id { FindStepFinds(wf, t); }
      }
    }
    var judged := Judged(s, ds, verdict, StatusOf(r, s.id));
    if judged == Approved && NextStep(wf, s.order).Some? {
      var t := NextStep(wf, s.order).value;
      q := p + [t];
      MovesToFreshStep(wf, m, r.(decisions := ds, statuses := r.statuses[s.id := Approved]), p, t, now);
    }
  }

  lemma {:induction false} PlayStaysBounded(wf: Workflow, m: Step, r: Request, p: seq<Step>, moves: seq<Move>)
    requires DistinctIds(wf.steps) && NoWayBack(wf, m) && OnTrail(wf, r, p) && p[0] == m && ClockOk(wf, r)
    ensures Approvals(Play(r, wf, moves).decisions) <= NeedOfAll(wf.steps)
    decreases |moves|
  {
    hide DistinctIds, NoWayBack, OnTrail, ClockOk, Decided, TimedOut;
    if moves == [] {
      OnTrailFits(wf, r, p);
    } else {
      var q := p;
      match moves[0] {
        case Sweep(now) =>
          q := SweepStaysOnTrail(wf, m, r, p, now);
          TimeoutKeepsClock(wf, r, now);
        case Vote(approver, verdict, now) =>
          if Decided(r, Some(wf), approver, verdict, now).Ok? {
            q := VoteStaysOnTrail(wf, m, r, p, approver, verdict, now);
            DecisionKeepsClock(wf, r, approver, verdict, now);
          }
      }
      PlayStaysBounded(wf, m, After(r, wf, moves[0]), q, moves[1..]);
    }
  }

  // ---------- a way back: approvals are not bounded ----------

  /** The request stands at `s`, nobody has voted against it, and its deadline is that of `s`. */
  ghost predicate Standing(wf: Workflow, r: Request, s: Step) {
    && s in wf.steps && r.status == Pending && r.current == Some(s.id)
    && s.id in r.statuses && r.statuses[s.id] == Pending
    && (forall i :: 0 <= i < |r.decisions| ==> r.decisions[i].verdict == Approve)
    && ClockOk(wf, r)
  }

  lemma {:induction false} NobodyRejected(ds: seq<Decision>, id: string)
    requires forall i :: 0 <= i < |ds| ==> ds[i].verdict == Approve
    ensures Votes(ds, id, Reject) == 0
  {
    if ds != [] {
      NobodyRejected(ds[1..], id);
    }
  }

  lemma OneApproval(wf: Workflow, r: Request, s: Step, t: Step)
    requires DistinctIds(wf.steps) && Standing(wf, r, s) && ByApproval(wf, s, t)
    ensures var r' := After(r, wf, Vote("approver", Approve, 0));
            && Approvals(r'.decisions) == Approvals(r.decisions) + 1
            && (Standing(wf, r', t)
                || (&& Standing(wf, r', s)
                    && Votes(r.decisions, s.id, Approve) < Votes(r'.decisions, s.id, Approve) < |s.approvers|))
  {
    hide Votes, FindStep, NextStep, ClockOk, DistinctIds;
    FindStepFinds(wf, s);
    FindStepFinds(wf, t);
    var d := Decision(s.id, "approver", Approve);
    BallotsAppend(r.decisions, d);
    ApprovalsAppend(r.decisions, d);
    NobodyRejected(r.decisions + [d], s.id);
    DecisionKeepsClock(wf, r, "approver", Approve, 0);
  }

  lemma {:induction false} ApproveStep(wf: Workflow, r: Request, s: Step, t: Step) returns (moves: seq<Move>)
    requires DistinctIds(wf.steps) && Standing(wf, r, s) && ByApproval(wf, s, t)
    ensures Standing(wf, Play(r, wf, moves), t)
    ensures Approvals(Play(r, wf, moves).decisions) > Approvals(r.decisions)
    decreases |s.approvers| - Votes(r.decisions, s.id, Approve)
  {
    hide After, Standing, ByApproval;
    var move := Vote("approver", Approve, 0);
    var r' := After(r, wf, move);
    OneApproval(wf, r, s, t);
    if Standing(wf, r', t) {
      moves := [move];
      assert Play(r', wf, moves[1..]) == r';
    } else {
      var later := ApproveStep(wf, r', s, t);
      moves := [move] + later;
      assert moves[1..] == later;
    }
  }

  lemma TimeOutStep(wf: Workflow, r: Request, s: Step, t: Step) returns (move: Move)
    requires DistinctIds(wf.steps) && Standing(wf, r, s) && ByTimeout(wf, s, t)
    ensures Standing(wf, After(r, wf, move), t)
    ensures After(r, wf, move).decisions == r.decisions
  {
    hide FindStep, DistinctIds;
    FindStepFinds(wf, s);
    var late := r.expiresAt.value + 1;
    TimeoutKeepsClock(wf, r, late);
    move := Sweep(late);
  }

  function Longest(steps: seq<Step>): (n: nat)
    ensures forall s :: s in steps ==> |s.id| <= n
  {
    if steps == [] then 0
    else
      var n := Longest(steps[1..]);
      if |steps[0].id| > n then |steps[0].id| else n
  }

  /**
   A request can be taken along every trail. Each step of it takes an approval or makes the step's id longer,
   so that long trails take many approvals.
   */
  lemma {:induction false} Walk(wf: Workflow, r: Request, p: seq<Step>) returns (moves: seq<Move>)
    requires DistinctIds(wf.steps) && Trail(wf, p) && Standing(wf, r, p[0])
    ensures var gained := Approvals(Play(r, wf, moves).decisions) - Approvals(r.decisions);
            gained >= 0 && |p| - 1 + |p[0].id| <= gained * (Longest(wf.steps) + 1) + |p[|p| - 1].id|
    decreases |p|
  {
    hide After, DistinctIds, Standing, ByApproval, ByTimeout, Longest, Approvals;
    moves := [];
    if |p| > 1 {
      var rest := p[1..];
      assert Trail(wf, rest) by { RestOfTrail(wf, p); }
      var edge: seq<Move>;
      if ByTimeout(wf, p[0], p[1]) {
        var move := TimeOutStep(wf, r, p[0], p[1]);
        edge := [move];
        assert Play(After(r, wf, move), wf, edge[1..]) == After(r, wf, move);
        assert |p[1].id| == |p[0].id| + 10 by { EscalationIdIsLonger(wf, p[0], p[1]); }
      } else {
        edge := ApproveStep(wf, r, p[0], p[1]);
      }
      var later := Walk(wf, Play(r, wf, edge), rest);
      moves := edge + later;
      PlayAppend(r, wf, edge, later);
      var between := Approvals(Play(r, wf, edge).decisions);
      assert |p[0].id| <= Longest(wf.steps);
      OneMoreStep(|rest|, |p[0].id|, |p[1].id|, |p[|p| - 1].id|, between - Approvals(r.decisions),
                  Approvals(Play(r, wf, moves).decisions) - between, Longest(wf.steps) + 1);
    }
  }

  lemma OneMoreStep(steps: nat, id0: nat, id1: nat, last: nat, first: int, later: int, k: nat)
    requires first >= 0 && id0 < k && (first > 0 || id1 > id0)
    requires steps - 1 + id1 <= later * k + last
    ensures steps + id0 <= (first + later) * k + last
  {
    assert (first + later) * k == first * k + later * k;
    if first > 0 {
      assert first * k >= k;
    }
  }

  lemma FewApprovalsFewSteps(gained: int, n: nat, k: nat)
    requires gained <= n
    ensures gained * k <= n * k
  {
  }

  lemma EscalationIdIsLonger(wf: Workflow, s: Step, t: Step)
    requires ByTimeout(wf, s, t)
    ensures |t.id| == |s.id| + 10
  {
  }

  lemma RestOfTrail(wf: Workflow, p: seq<Step>)
    requires Trail(wf, p) && |p| > 1
    ensures Trail(wf, p[1..])
  {
    assert forall i :: 0 <= i < |p| - 1 ==> p[1..][i] == p[i + 1];
  }

  /** A trail that comes back to a step can be made as long as one likes. */
  lemma {:induction false} GoesRound(wf: Workflow, p: seq<Step>, i: nat, j: nat, length: nat) returns (q: seq<Step>)
    requires Trail(wf, p) && i < j < |p| && p[i] == p[j]
    ensures Trail(wf, q) && q[0] == p[0] && |q| >= length
    decreases length - |p|
  {
    if |p| >= length {
      q := p;
    } else {
      var longer := p[..j + 1] + p[i + 1..];
      assert Trail(wf, longer) by {
        forall k | 0 <= k < |longer| - 1
          ensures ByApproval(wf, longer[k], longer[k + 1]) || ByTimeout(wf, longer[k], longer[k + 1])
        {
          var n := if k < j then k else k - (j - i);
          assert longer[k] == p[n] && longer[k + 1] == p[n + 1];
        }
      }
      q := GoesRound(wf, longer, i, j, length);
    }
  }

  /** No run of moves records more than `n` approvals. */
  ghost predicate Bounded(wf: Workflow, start: Request, n: nat) {
    forall moves :: Approvals(Play(start, wf, moves).decisions) <= n
  }

  lemma SomeWayBack(wf: Workflow, m: Step) returns (p: seq<Step>, i: nat, j: nat)
    requires !NoWayBack(wf, m)
    ensures Trail(wf, p) && p[0] == m && i < j < |p| && p[i] == p[j]
  {
    p :| Trail(wf, p) && p[0] == m && !NoRepeat(p);
    i, j :| 0 <= i < j < |p| && p[i] == p[j];
  }

  lemma WayBackIsUnbounded(wf: Workflow, m: Step, start: Request, n: nat) returns (moves: seq<Move>)
    requires DistinctIds(wf.steps) && Standing(wf, start, m) && !NoWayBack(wf, m)
    ensures Approvals(Play(start, wf, moves).decisions) > n
  {
    hide DistinctIds, Standing, Longest, Approvals, Trail, NoWayBack;
    var p, i, j := SomeWayBack(wf, m);
    var k := Longest(wf.steps) + 1;
    var q := GoesRound(wf, p, i, j, n * k + k + 1);
    moves := Walk(wf, start, q);
    hide Play;
    assert |q[|q| - 1].id| < k by { LastOfTrail(wf, q); }
    var gained := Approvals(Play(start, wf, moves).decisions) - Approvals(start.decisions);
    if gained <= n {
      FewApprovalsFewSteps(gained, n, k);
      assert false;
    }
  }

  /**
   The approvals of a request are bounded if and only if no way through the workflow leads back to a step, and
   then by what all steps need.
   */
  lemma ApprovalsBoundedIff(wf: Workflow, attributes: map<string, string>, compare: (Condition, string) -> bool,
                            now: int)
    requires DistinctIds(wf.steps) && Submitted(wf, attributes, compare, now).Some?
    ensures MatchingStep(wf, attributes, compare).Some?
    ensures var m := MatchingStep(wf, attributes, compare).value;
            var start := Submitted(wf, attributes, compare, now).value;
            && (NoWayBack(wf, m) ==> Bounded(wf, start, NeedOfAll(wf.steps)))
            && ((exists n: nat :: Bounded(wf, start, n)) <==> NoWayBack(wf, m))
  {
    hide DistinctIds, NoWayBack, Play, MatchingStep, FindStep;
    var m := MatchingStep(wf, attributes, compare).value;
    var start := Submitted(wf, attributes, compare, now).value;
    FindStepFinds(wf, m);
    assert Standing(wf, start, m) && OnTrail(wf, start, [m]);
    if NoWayBack(wf, m) {
      forall moves ensures Approvals(Play(start, wf, moves).decisions) <= NeedOfAll(wf.steps) {
        PlayStaysBounded(wf, m, start, [m], moves);
      }
    } else {
      forall n: nat ensures !Bounded(wf, start, n) {
        var moves := WayBackIsUnbounded(wf, m, start, n);
        assert Approvals(Play(start, wf, moves).decisions) > n;
      }
    }
  }
}
