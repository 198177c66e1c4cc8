/** Whose approvals an approved AND step rests on. */
module ApprovalVoters {
  import opened Sets
  import opened Wrappers
  import opened Approval
  import opened ApprovalSafety
  import opened ApprovalRuns

  function Voters(ds: seq<Decision>, id: string): seq<string> {
    if ds == [] then [] else
      (if ds[0].stepId == id && ds[0].verdict == Approve then [ds[0].approver] else []) + Voters(ds[1..], id)
  }

  ghost predicate NoDuplicates(s: seq<string>) {
    forall i, j :: 0 <= i < j < |s| ==> s[i] != s[j]
  }

  ghost function Elements(s: seq<string>): set<string> {
    set x | x in s
  }

  lemma {:induction false} VotersCounted(ds: seq<Decision>, id: string)
    ensures |Voters(ds, id)| == Votes(ds, id, Approve)
  {
    if ds != [] {
      VotersCounted(ds[1..], id);
    }
  }

  lemma {:induction false} ElementsCount(s: seq<string>)
    ensures |Elements(s)| <= |s|
    ensures |Elements(s)| == |s| <==> NoDuplicates(s)
  {
    if s != [] {
      ElementsCount(s[1..]);
      assert Elements(s) == Elements(s[1..]) + {s[0]};
      if s[0] in s[1..] {
        assert Elements(s) == Elements(s[1..]);
        var j :| 0 <= j < |s[1..]| && s[1..][j] == s[0];
        assert s[0] == s[j + 1];
      } else {
        assert |Elements(s)| == |Elements(s[1..])| + 1;
        if NoDuplicates(s[1..]) {
          forall i, j | 0 <= i < j < |s| ensures s[i] != s[j] {
            assert s[j] == s[1..][j - 1];
            if i > 0 { assert s[i] == s[1..][i - 1]; }
          }
        }
        if NoDuplicates(s) {
          forall i, j | 0 <= i < j < |s[1..]| ensures s[1..][i] != s[1..][j] {
            assert s[1..][i] == s[i + 1] && s[1..][j] == s[j + 1];
          }
        }
      }
    }
  }

  /** The check that would make an approval one of the listed approvers' own, made before it is recorded. */
  predicate Counts(ds: seq<Decision>, step: Step, approver: string) {
    approver in step.approvers && approver !in Voters(ds, step.id)
  }

  predicate Approves(d: Decision, id: string) {
    d.stepId == id && d.verdict == Approve
  }

  /** How many approvals of the step were recorded although that check fails. */
  function Wasted(ds: seq<Decision>, step: Step): nat {
    if ds == [] then 0 else
      var before, d := ds[..|ds| - 1], ds[|ds| - 1];
      Wasted(before, step) + (if Approves(d, step.id) && !Counts(before, step, d.approver) then 1 else 0)
  }

  ghost predicate EachCounts(ds: seq<Decision>, step: Step) {
    forall i :: 0 <= i < |ds| && Approves(ds[i], step.id) ==> Counts(ds[..i], step, ds[i].approver)
  }

  lemma {:induction false} NoneWastedIff(ds: seq<Decision>, step: Step)
    ensures Wasted(ds, step) == 0 <==> EachCounts(ds, step)
  {
    if ds != [] {
      var before := ds[..|ds| - 1];
      NoneWastedIff(before, step);
      assert forall i :: 0 <= i < |before| ==> before[i] == ds[i] && before[..i] == ds[..i];
    }
  }

  /** An approval either adds a listed approver to those who approved, or is wasted. */
  lemma {:induction false} VotersSplit(ds: seq<Decision>, step: Step)
    ensures |Voters(ds, step.id)| == |Elements(Voters(ds, step.id)) * Elements(step.approvers)| + Wasted(ds, step)
  {
    if ds != [] {
      hide Voters, Elements;
      var before, d := ds[..|ds| - 1], ds[|ds| - 1];
      VotersSplit(before, step);
      VotersAppend(before, d, step.id);
      assert ds == before + [d];
      var voters := Voters(before, step.id);
      OneMoreVoter(voters, d.approver, step.approvers);
      assert !Approves(d, step.id) ==> voters + [] == voters;
    }
  }

  lemma OneMoreVoter(voters: seq<string>, v: string, listed: seq<string>)
    ensures |Elements(voters + [v]) * Elements(listed)|
         == |Elements(voters) * Elements(listed)| + (if v in listed && v !in voters then 1 else 0)
  {
    var both := Elements(voters) * Elements(listed);
    if v in listed && v !in voters {
      assert Elements(voters + [v]) * Elements(listed) == both + {v};
    } else {
      assert Elements(voters + [v]) * Elements(listed) == both;
    }
  }

  /**
   An AND step is meant to wait for all its approvers, and the engine counts approvals instead. An approved
   one has every listed approver's approval exactly when no more approvals were wasted than its list repeats
   names: without repeats, when each came from a listed approver who had not approved the step before.
   */
  lemma AllApproversApprovedIff(wf: Workflow, r: Request, compare: (Condition, string) -> bool, id: string)
    requires Reachable(wf, r, compare) && id in r.statuses && r.statuses[id] == Approved
    ensures Known(wf, id)
    ensures At(wf, id).nodeType == And ==>
              var step := At(wf, id);
              && ((forall a :: a in step.approvers ==> a in Voters(r.decisions, id))
                  <==> step.approvers == []
                       || Wasted(r.decisions, step) == |step.approvers| - |Elements(step.approvers)|)
              && (NoDuplicates(step.approvers) && step.approvers != [] ==>
                    ((forall a :: a in step.approvers ==> a in Voters(r.decisions, id))
                     <==> EachCounts(r.decisions, step)))
  {
    hide Reachable, FindStep, Votes, Waiting, MatchingStep, WellFormed, StatusOk, CoverageOk, BudgetOk, EachCounts;
    hide Voters, Wasted, Elements, NoDuplicates;
    ReachableInv(wf, r, compare);
    assert Left(wf, r, id);
    var step := At(wf, id);
    VotersCounted(r.decisions, id);
    VotersSplit(r.decisions, step);
    ElementsCount(step.approvers);
    NoneWastedIff(r.decisions, step);
    AllInIffSameSize(step.approvers, Voters(r.decisions, id));
  }

  lemma AllInIffSameSize(listed: seq<string>, voters: seq<string>)
    ensures (forall a :: a in listed ==> a in voters)
       <==> |Elements(voters) * Elements(listed)| == |Elements(listed)|
  {
    var both := Elements(voters) * Elements(listed);
    SubsetSize(both, Elements(listed));
    if |both| == |Elements(listed)| {
      assert forall a :: a in listed ==> a in both;
    }
    if forall a :: a in listed ==> a in voters {
      assert both == Elements(listed);
    }
  }

  /** A vote that does not approve makes an open step approved exactly if it escalates a step without approvers. */
  lemma ApprovesWithoutApprovingIff(wf: Workflow, m: Step, r: Request, d: Decision)
    requires Inv(wf, m, r) && r.current == Some(d.stepId) && d.verdict != Approve
    ensures var step := At(wf, d.stepId);
            Judged(step, r.decisions + [d], d.verdict, StatusOf(r, d.stepId)) == Approved
            <==> step.nodeType == And && step.approvers == [] && d.verdict == Escalate
  {
    hide FindStep, Votes, LeftOk, StatusOk, CoverageOk, BudgetOk;
    BallotsAppend(r.decisions, d);
  }

  /** Nobody but these people is added to the record. */
  lemma {:induction false} OnlyTheseAreRecorded(r: Request, wf: Workflow, people: seq<string>, now: int, id: string)
    ensures forall v :: v in Voters(ApprovedBy(r, wf, people, now).decisions, id) ==>
              v in Voters(r.decisions, id) || v in people
    decreases |people|
  {
    hide FindStep, NextStep, Judged, CompleteStep;
    if people != [] && Decided(r, Some(wf), people[0], Approve, now).Ok? {
      var r1 := Decided(r, Some(wf), people[0], Approve, now).value.0;
      CompletingRecordsNothing(Marked(r, Decision(r.current.value, people[0], Approve), Approved), wf, now);
      assert r1.decisions == r.decisions + [Decision(r.current.value, people[0], Approve)];
      VotersAppend(r.decisions, Decision(r.current.value, people[0], Approve), id);
      OnlyTheseAreRecorded(r1, wf, people[1..], now, id);
    }
  }

  lemma CompletingRecordsNothing(r: Request, wf: Workflow, now: int)
    ensures CompleteStep(r, wf, now).0.decisions == r.decisions
  {
  }

  lemma {:induction false} VotersAppend(ds: seq<Decision>, d: Decision, id: string)
    ensures Voters(ds + [d], id) == Voters(ds, id) + (if Approves(d, id) then [d.approver] else [])
  {
    if ds == [] {
      assert ds + [d] == [d];
    } else {
      VotersAppend(ds[1..], d, id);
      assert (ds + [d])[1..] == ds[1..] + [d];
    }
  }

  /** So one person alone, listed or not, can take any fresh request through all its AND steps. */
  lemma OnePersonCanApproveAlone(wf: Workflow, r: Request, compare: (Condition, string) -> bool,
                                 person: string, id: string, now: int)
    requires Reachable(wf, r, compare) && r.status == Pending && r.decisions == []
    ensures var done := ApprovedBy(r, wf, seq(NeedOfAll(wf.steps), _ => person), now);
            done.status == Approved && forall v :: v in Voters(done.decisions, id) ==> v == person
  {
    var people := seq(NeedOfAll(wf.steps), _ => person);
    OpenRequestsCanFinish(wf, r, compare, people, now);
    OnlyTheseAreRecorded(r, wf, people, now, id);
  }
}
