/** Retries, backoff, escalation and cancellation over every run of the execution loop. */
module ExecutionBounds {
  import opened Execution

  function AttemptsAt(log: seq<Event>, i: nat): nat {
    if log == [] then 0 else (if log[0] == Attempted(i) then 1 else 0) + AttemptsAt(log[1..], i)
  }

  function Sleeps(log: seq<Event>): seq<nat> {
    if log == [] then [] else if log[0].Slept? then [log[0].ms] + Sleeps(log[1..]) else Sleeps(log[1..])
  }

  function Sum(xs: seq<nat>): nat {
    if xs == [] then 0 else xs[0] + Sum(xs[1..])
  }

  function Power(b: nat, e: nat): nat {
    if e == 0 then 1 else b * Power(b, e - 1)
  }

  lemma {:induction false} LogAppend(a: seq<Event>, b: seq<Event>, i: nat)
    ensures AttemptsAt(a + b, i) == AttemptsAt(a, i) + AttemptsAt(b, i)
    ensures Sleeps(a + b) == Sleeps(a) + Sleeps(b)
  {
    var ab := a + b;
    if a == [] {
      assert ab == b;
    } else {
      LogAppend(a[1..], b, i);
      assert ab[0] == a[0] && ab[1..] == a[1..] + b;
      var rest := Sleeps(a[1..]);
      assert a[0].Slept? ==> [a[0].ms] + (rest + Sleeps(b)) == [a[0].ms] + rest + Sleeps(b);
    }
  }

  lemma SmallLogs(i: nat, j: nat, cancelled: bool, ms: nat)
    ensures AttemptsAt([Attempted(i)] + Noted(cancelled), j) == (if i == j then 1 else 0)
    ensures Sleeps([Attempted(i)] + Noted(cancelled)) == []
    ensures AttemptsAt([Slept(ms)], j) == 0 && Sleeps([Slept(ms)]) == [ms]
    ensures AttemptsAt([Started(i)], j) == 0 && Sleeps(Noted(cancelled)) == []
    ensures AttemptsAt([Reflected(i)] + Noted(cancelled), j) == 0
  {
    LogAppend([Attempted(i)], Noted(cancelled), j);
    LogAppend([Reflected(i)], Noted(cancelled), j);
  }

  // ---------- one execute_step ----------

  /**
   `execute_step` stops at the first attempt that does not fail, or after all it is allowed; it ends as its
   last attempt did, and the log shows exactly those attempts.
   */
  lemma {:induction false} ExecuteEndsAtFirstNonFailure(w: World, i: nat, from: nat, allowed: nat, delay: nat,
                                                       multiplier: nat, j: nat)
    requires allowed > 0
    ensures var e := Execute(w, i, from, allowed, delay, multiplier);
            && 1 <= e.attempts <= allowed
            && (forall a :: from <= a < from + e.attempts - 1 ==> w.attempts(i, a).ending.Fails?)
            && e.ending == w.attempts(i, from + e.attempts - 1).ending
            && (e.ending.Fails? ==> e.attempts == allowed)
            && AttemptsAt(e.log, j) == (if i == j then e.attempts else 0)
    decreases allowed
  {
    var a := w.attempts(i, from);
    var seen := [Attempted(i)] + Noted(a.cancelled);
    SmallLogs(i, j, a.cancelled, delay);
    if a.ending.Fails? && allowed > 1 {
      ExecuteEndsAtFirstNonFailure(w, i, from + 1, allowed - 1, delay * multiplier, multiplier, j);
      var rest := Execute(w, i, from + 1, allowed - 1, Backoff(delay, multiplier), multiplier);
      LogAppend(seen + [Slept(delay)], rest.log, j);
      LogAppend(seen, [Slept(delay)], j);
    }
  }

  /** So it fails exactly when every attempt it is allowed fails. */
  lemma ExecuteFailsIff(w: World, i: nat, from: nat, allowed: nat, delay: nat, multiplier: nat)
    requires allowed > 0
    ensures Execute(w, i, from, allowed, delay, multiplier).ending.Fails?
       <==> forall a: nat :: from <= a < from + allowed ==> w.attempts(i, a).ending.Fails?
  {
    ExecuteEndsAtFirstNonFailure(w, i, from, allowed, delay, multiplier, i);
    var last := from + Execute(w, i, from, allowed, delay, multiplier).attempts - 1;
    assert forall a: nat :: from <= a < last ==> w.attempts(i, a).ending.Fails?;
  }

  /** Between attempts it sleeps the initial delay, growing by the multiplier each time. */
  lemma {:induction false} BackoffIsGeometric(w: World, i: nat, from: nat, allowed: nat, delay: nat, multiplier: nat)
    requires allowed > 0
    ensures var e := Execute(w, i, from, allowed, delay, multiplier);
            var slept := Sleeps(e.log);
            && |slept| == e.attempts - 1
            && (forall k :: 0 <= k < |slept| ==> slept[k] == delay * Power(multiplier, k))
    decreases allowed
  {
    var a := w.attempts(i, from);
    var seen := [Attempted(i)] + Noted(a.cancelled);
    SmallLogs(i, 0, a.cancelled, delay);
    hide Sleeps, Power, Backoff;
    if a.ending.Fails? && allowed > 1 {
      BackoffIsGeometric(w, i, from + 1, allowed - 1, Backoff(delay, multiplier), multiplier);
      var rest := Execute(w, i, from + 1, allowed - 1, Backoff(delay, multiplier), multiplier);
      LogAppend(seen + [Slept(delay)], rest.log, 0);
      LogAppend(seen, [Slept(delay)], 0);
      var slept := Sleeps(rest.log);
      DelaysShift(slept, delay, multiplier);
    }
  }

  lemma DelaysShift(slept: seq<nat>, delay: nat, multiplier: nat)
    requires forall k :: 0 <= k < |slept| ==> slept[k] == Backoff(delay, multiplier) * Power(multiplier, k)
    ensures forall k :: 0 <= k < |slept| + 1 ==> ([delay] + slept)[k] == delay * Power(multiplier, k)
  {
    forall k | 1 <= k < |slept| + 1 ensures ([delay] + slept)[k] == delay * Power(multiplier, k) {
      MulAssoc(delay, multiplier, Power(multiplier, k - 1));
    }
  }

  lemma MulAssoc(a: nat, b: nat, c: nat)
    ensures a * b * c == a * (b * c)
  {
  }

  lemma {:induction false} PowerOfOne(e: nat)
    ensures Power(1, e) == 1
  {
    if e > 0 {
      PowerOfOne(e - 1);
    }
  }

  lemma {:induction false} GeometricSum(xs: seq<nat>, delay: nat, multiplier: nat)
    requires forall k :: 0 <= k < |xs| ==> xs[k] == delay * Power(multiplier, k)
    ensures Sum(xs) * (multiplier - 1) == delay * (Power(multiplier, |xs|) - 1)
    ensures multiplier == 1 ==> Sum(xs) == |xs| * delay
    decreases |xs|
  {
    if xs != [] {
      var n := |xs| - 1;
      var front, last := xs[..n], xs[n];
      assert xs == front + [last];
      GeometricSum(front, delay, multiplier);
      SumAppend(front, last);
      assert Power(multiplier, |xs|) == multiplier * Power(multiplier, n);
      Distribute(Sum(front), delay, Power(multiplier, n), multiplier);
      if multiplier == 1 {
        PowerOfOne(n);
        OneMore(n, delay);
      }
    }
  }

  lemma OneMore(n: nat, delay: nat)
    ensures n * delay + delay == (n + 1) * delay
  {
  }

  lemma Distribute(s: int, d: int, p: int, m: int)
    requires s * (m - 1) == d * (p - 1)
    ensures (s + d * p) * (m - 1) == d * (m * p - 1)
  {
    assert (s + d * p) * (m - 1) == s * (m - 1) + (d * p) * m - d * p;
    assert (d * p) * m == d * (m * p);
  }

  lemma {:induction false} SumAppend(xs: seq<nat>, x: nat)
    ensures Sum(xs + [x]) == Sum(xs) + x
  {
    if xs == [] {
      assert xs + [x] == [x];
    } else {
      SumAppend(xs[1..], x);
      assert (xs + [x])[1..] == xs[1..] + [x];
    }
  }

  /** A failing `execute_step` makes all R + 1 attempts and sleeps d * (m^R - 1) / (m - 1), or R * d if m is 1. */
  lemma FailingStepCost(w: World, i: nat, retries: nat, delay: nat, multiplier: nat)
    requires Execute(w, i, 0, retries + 1, delay, multiplier).ending.Fails?
    ensures var e := Execute(w, i, 0, retries + 1, delay, multiplier);
            && e.attempts == retries + 1
            && (forall a :: 0 <= a <= retries ==> w.attempts(i, a).ending.Fails?)
            && Sum(Sleeps(e.log)) * (multiplier - 1) == delay * (Power(multiplier, retries) - 1)
            && (multiplier == 1 ==> Sum(Sleeps(e.log)) == retries * delay)
  {
    ExecuteEndsAtFirstNonFailure(w, i, 0, retries + 1, delay, multiplier, i);
    BackoffIsGeometric(w, i, 0, retries + 1, delay, multiplier);
    GeometricSum(Sleeps(Execute(w, i, 0, retries + 1, delay, multiplier).log), delay, multiplier);
  }

  // ---------- attempts per plan step ----------

  lemma RecoverAttempts(w: World, c: Config, i: nat, used: nat, j: nat)
    ensures AttemptsAt(Recover(w, c, i, used).log, j) <= (if i == j then c.maxRetries else 0)
  {
    if c.maxRetries > 0 {
      ExecuteEndsAtFirstNonFailure(w, i, used, c.maxRetries, c.initialDelay, c.multiplier, j);
      LogAppend([Slept(100)], Execute(w, i, used, c.maxRetries, c.initialDelay, c.multiplier).log, j);
      SmallLogs(i, j, false, 100);
    }
  }

  lemma TurnAttempts(w: World, c: Config, i: nat, j: nat)
    ensures AttemptsAt(TakeStep(w, c, i).log, j) <= (if i == j then 2 * c.maxRetries + 1 else 0)
  {
    hide Execute, Recover, AttemptsAt, Sleeps;
    SmallLogs(i, j, w.reflections(i).cancelled, 0);
    if w.wellFormed(i) {
      var act := Execute(w, i, 0, c.maxRetries + 1, c.initialDelay, c.multiplier);
      ExecuteEndsAtFirstNonFailure(w, i, 0, c.maxRetries + 1, c.initialDelay, c.multiplier, j);
      var log := [Started(i)] + act.log;
      var reflected := [Reflected(i)] + Noted(w.reflections(i).cancelled);
      LogAppend([Started(i)], act.log, j);
      LogAppend(log, reflected, j);
      assert log + [Reflected(i)] + Noted(w.reflections(i).cancelled) == log + reflected;
      RecoverAttempts(w, c, i, act.attempts, j);
      LogAppend(log, Recover(w, c, i, act.attempts).log, j);
      LogAppend(log + reflected, Recover(w, c, i, act.attempts).log, j);
    }
  }

  lemma {:induction false} LoopAttempts(w: World, c: Config, i: nat, n: nat, state: State, j: nat)
    ensures AttemptsAt(Loop(w, c, i, n, state).log, j) <= (if i <= j then 2 * c.maxRetries + 1 else 0)
    decreases n - i
  {
    hide TakeStep;
    if i < n && state != Cancelled {
      var t := TakeStep(w, c, i);
      TurnAttempts(w, c, i, j);
      if t.control == Next {
        var now := Watched(state, t.log);
        LoopAttempts(w, c, i + 1, n, now, j);
        LogAppend(t.log, Loop(w, c, i + 1, n, now).log, j);
      }
    }
  }

  /** No run attempts a plan step more than 2R + 1 times. */
  lemma RunAttemptsBounded(w: World, c: Config, j: nat)
    ensures AttemptsAt(Run(w, c).log, j) <= 2 * c.maxRetries + 1
  {
    hide Loop;
    if w.plan.Plan? {
      var state := Watched(Running, Noted(w.planCancelled));
      LoopAttempts(w, c, 0, w.plan.steps, state, j);
      LogAppend(Noted(w.planCancelled), Loop(w, c, 0, w.plan.steps, state).log, j);
    }
    assert AttemptsAt(Noted(w.planCancelled), j) == 0;
  }

  /** The bound is reached by a first step that always fails. */
  lemma RunAttemptsReachBound(c: Config)
    ensures var w := World(Plan(1), false, i => true, (i, a) => Attempt(Fails("down"), false),
                           i => Reflection(GoOn, false));
            AttemptsAt(Run(w, c).log, 0) == 2 * c.maxRetries + 1
  {
    var w := World(Plan(1), false, i => true, (i, a) => Attempt(Fails("down"), false), i => Reflection(GoOn, false));
    var r := c.maxRetries;
    var act := Execute(w, 0, 0, r + 1, c.initialDelay, c.multiplier);
    ExecuteEndsAtFirstNonFailure(w, 0, 0, r + 1, c.initialDelay, c.multiplier, 0);
    SmallLogs(0, 0, false, 100);
    LogAppend([Started(0)], act.log, 0);
    var t := Recover(w, c, 0, act.attempts);
    if r > 0 {
      var again := Execute(w, 0, act.attempts, r, c.initialDelay, c.multiplier);
      ExecuteEndsAtFirstNonFailure(w, 0, act.attempts, r, c.initialDelay, c.multiplier, 0);
      LogAppend([Slept(100)], again.log, 0);
    }
    LogAppend([Started(0)] + act.log, t.log, 0);
    assert TakeStep(w, c, 0) == Prefixed([], [Started(0)] + act.log, t);
    assert Loop(w, c, 0, 1, Running).log == TakeStep(w, c, 0).log;
    assert [] + Loop(w, c, 0, 1, Running).log == Loop(w, c, 0, 1, Running).log;
  }

  // ---------- steps that are done again ----------

  /**
   A plan step is attempted again after it succeeded exactly when its reflection raises and retries are
   configured; its result is then recorded a second time exactly if the second round succeeds too.
   */
  lemma DoneAgainIff(w: World, c: Config, i: nat)
    requires w.wellFormed(i)
    requires Execute(w, i, 0, c.maxRetries + 1, c.initialDelay, c.multiplier).ending.Succeeds?
    ensures var first := Execute(w, i, 0, c.maxRetries + 1, c.initialDelay, c.multiplier);
            var again := w.reflections(i).verdict.Breaks? && c.maxRetries > 0;
            var t := TakeStep(w, c, i);
            && (AttemptsAt(t.log, i) > first.attempts <==> again)
            && |t.results| == (if again && Execute(w, i, first.attempts, c.maxRetries, c.initialDelay,
                                                   c.multiplier).ending.Succeeds? then 2 else 1)
  {
    hide Execute, AttemptsAt, Sleeps;
    var first := Execute(w, i, 0, c.maxRetries + 1, c.initialDelay, c.multiplier);
    var reflected := [Reflected(i)] + Noted(w.reflections(i).cancelled);
    var log := [Started(i)] + first.log;
    ExecuteEndsAtFirstNonFailure(w, i, 0, c.maxRetries + 1, c.initialDelay, c.multiplier, i);
    SmallLogs(i, i, w.reflections(i).cancelled, 100);
    LogAppend([Started(i)], first.log, i);
    LogAppend(log, reflected, i);
    assert log + [Reflected(i)] + Noted(w.reflections(i).cancelled) == log + reflected;
    if w.reflections(i).verdict.Breaks? {
      LogAppend(log + reflected, Recover(w, c, i, first.attempts).log, i);
      if c.maxRetries > 0 {
        var second := Execute(w, i, first.attempts, c.maxRetries, c.initialDelay, c.multiplier);
        ExecuteEndsAtFirstNonFailure(w, i, first.attempts, c.maxRetries, c.initialDelay, c.multiplier, i);
        LogAppend([Slept(100)], second.log, i);
      } else {
        assert log + reflected + [] == log + reflected;
      }
    }
  }

  /** One plan step that always succeeds and whose reflection raises: done twice, recorded twice, completed. */
  lemma SucceededStepRunsAgain(text: string)
    ensures var w := World(Plan(1), false, i => true, (i, a) => Attempt(Succeeds(text), false),
                           i => Reflection(Breaks("no reply"), false));
            var o := Run(w, Config(1, 500, 2, true));
            && AttemptsAt(o.log, 0) == 2 && o.state == Completed
            && o.results == [StepResult(0, text), StepResult(0, text)]
  {
    var w := World(Plan(1), false, i => true, (i, a) => Attempt(Succeeds(text), false),
                   i => Reflection(Breaks("no reply"), false));
    var c := Config(1, 500, 2, true);
    DoneAgainIff(w, c, 0);
    TurnAttempts(w, c, 0, 0);
    var t := TakeStep(w, c, 0);
    assert t == Turn(Next, false, [StepResult(0, text), StepResult(0, text)], t.log);
    assert Loop(w, c, 0, 1, Running).results == t.results + [];
    assert Loop(w, c, 0, 1, Running).log == t.log + [];
    assert AttemptsAt(t.log, 0) == 2 by {
      assert t.log == [Started(0), Attempted(0), Reflected(0), Slept(100), Attempted(0)];
      hide TakeStep, Execute, Loop;
    }
    assert Run(w, c).log == t.log;
  }

  // ---------- cancellation ----------

  /** Once `cancel` was called, no plan step starts. */
  ghost predicate NoStartAfterCancel(log: seq<Event>) {
    forall p, q :: 0 <= p < q < |log| && log[p] == CancelCalled ==> !log[q].Started?
  }

  ghost predicate NoStart(log: seq<Event>) {
    forall q :: 0 <= q < |log| ==> !log[q].Started?
  }

  lemma {:induction false} ExecuteStartsNothing(w: World, i: nat, from: nat, allowed: nat, delay: nat, multiplier: nat)
    requires allowed > 0
    ensures NoStart(Execute(w, i, from, allowed, delay, multiplier).log)
    decreases allowed
  {
    if w.attempts(i, from).ending.Fails? && allowed > 1 {
      ExecuteStartsNothing(w, i, from + 1, allowed - 1, Backoff(delay, multiplier), multiplier);
    }
  }

  lemma RecoverStartsNothing(w: World, c: Config, i: nat, used: nat)
    ensures NoStart(Recover(w, c, i, used).log)
  {
    if c.maxRetries > 0 {
      ExecuteStartsNothing(w, i, used, c.maxRetries, c.initialDelay, c.multiplier);
    }
  }

  lemma TurnStartsOnce(w: World, c: Config, i: nat)
    ensures var log := TakeStep(w, c, i).log; log != [] && log[0] == Started(i) && NoStart(log[1..])
  {
    hide Execute, Recover;
    var r := w.reflections(i);
    if w.wellFormed(i) {
      var act := Execute(w, i, 0, c.maxRetries + 1, c.initialDelay, c.multiplier);
      ExecuteStartsNothing(w, i, 0, c.maxRetries + 1, c.initialDelay, c.multiplier);
      RecoverStartsNothing(w, c, i, act.attempts);
    }
  }

  lemma {:induction false} LoopAfterCancel(w: World, c: Config, i: nat, n: nat, state: State)
    requires state == Running || state == Cancelled
    ensures var o := Loop(w, c, i, n, state);
            && NoStartAfterCancel(o.log)
            && (state == Cancelled ==> o == Outcome(Cancelled, [], []))
            && (o.state == Completed ==> !CancelIn(o.log) && state == Running)
            && o.state in {Completed, Failed, Escalated, Cancelled, Running}
    decreases n - i
  {
    hide TakeStep;
    if i < n && state == Running {
      var t := TakeStep(w, c, i);
      TurnStartsOnce(w, c, i);
      assert forall q :: 1 <= q < |t.log| ==> t.log[q] == t.log[1..][q - 1];
      if t.control == Next {
        LoopAfterCancel(w, c, i + 1, n, Watched(state, t.log));
        var rest := Loop(w, c, i + 1, n, Watched(state, t.log));
        JoinedLogs(t.log, rest.log);
      }
    }
  }

  lemma JoinedLogs(a: seq<Event>, b: seq<Event>)
    requires NoStartAfterCancel(a) && NoStartAfterCancel(b) && (CancelIn(a) ==> b == [])
    ensures NoStartAfterCancel(a + b)
    ensures CancelIn(a + b) <==> CancelIn(a) || CancelIn(b)
  {
    var ab := a + b;
    forall p, q | 0 <= p < q < |ab| && ab[p] == CancelCalled ensures !ab[q].Started? {
      if p < |a| {
        assert a[p] == CancelCalled;
      } else {
        assert b[p - |a|] == ab[p] && b[q - |a|] == ab[q];
      }
    }
  }

  /** A cancelled run starts no further plan step and is never reported as completed. */
  lemma CancelStopsTheRun(w: World, c: Config)
    ensures NoStartAfterCancel(Run(w, c).log)
    ensures CancelIn(Run(w, c).log) ==> Run(w, c).state != Completed
  {
    hide Loop;
    var log := Noted(w.planCancelled);
    if w.plan.Plan? {
      var state := Watched(Running, log);
      LoopAfterCancel(w, c, 0, w.plan.steps, state);
      JoinedLogs(log, Loop(w, c, 0, w.plan.steps, state).log);
    }
  }

  /** The step `i` fails for good: both rounds, or the only one, end in an error. */
  ghost predicate GivesUp(w: World, c: Config, i: nat) {
    var first := Execute(w, i, 0, c.maxRetries + 1, c.initialDelay, c.multiplier);
    && (first.ending.Fails? || (first.ending.Succeeds? && w.reflections(i).verdict.Breaks?))
    && (c.maxRetries > 0 ==>
          Execute(w, i, first.attempts, c.maxRetries, c.initialDelay, c.multiplier).ending.Fails?)
  }

  /** A turn after which the loop goes on as if nothing had been cancelled. */
  ghost predicate Calm(w: World, c: Config, j: nat) {
    TakeStep(w, c, j).control == Next && !CancelIn(TakeStep(w, c, j).log)
  }

  /** The run comes to plan step `i`, and `cancel` is called while it is at that step. */
  ghost predicate CancelledDuring(w: World, c: Config, i: nat) {
    && w.plan.Plan? && !w.planCancelled && i < w.plan.steps
    && (forall j: nat :: j < i ==> Calm(w, c, j))
    && CancelIn(TakeStep(w, c, i).log)
  }

  lemma TurnEnds(w: World, c: Config, i: nat)
    requires CancelIn(TakeStep(w, c, i).log)
    ensures var t := TakeStep(w, c, i);
            && (t.control == Fail || t.escalates <==> GivesUp(w, c, i))
            && (t.escalates <==> GivesUp(w, c, i) && c.maxRetries == 0 && c.escalation)
            && (t.escalates ==> t.control == Leave)
  {
    hide Execute;
  }

  lemma {:induction false} LoopCancelledIff(w: World, c: Config, from: nat, n: nat, i: nat)
    requires from <= i < n && CancelIn(TakeStep(w, c, i).log) && forall j: nat :: from <= j < i ==> Calm(w, c, j)
    ensures var o := Loop(w, c, from, n, Running);
            && CancelIn(o.log)
            && (o.state == Cancelled <==> !GivesUp(w, c, i))
            && (o.state != Cancelled ==> o.state == GaveUpState(c))
    decreases i - from
  {
    hide TakeStep, GivesUp;
    if from == i {
      TurnEnds(w, c, i);
    } else {
      assert Calm(w, c, from);
      LoopCancelledIff(w, c, from + 1, n, i);
    }
  }

  lemma {:induction false} LoopCancelledSomewhere(w: World, c: Config, from: nat, n: nat) returns (i: nat)
    requires CancelIn(Loop(w, c, from, n, Running).log)
    ensures from <= i < n && CancelIn(TakeStep(w, c, i).log) && forall j: nat :: from <= j < i ==> Calm(w, c, j)
    decreases n - from
  {
    hide TakeStep;
    i := from;
    if !CancelIn(TakeStep(w, c, from).log) {
      i := LoopCancelledSomewhere(w, c, from + 1, n);
    }
  }

  function GaveUpState(c: Config): State {
    if c.maxRetries == 0 && c.escalation then Escalated else Failed
  }

  /**
   A `cancel` while the run is at plan step `i` ends it as cancelled exactly when that step does not fail for
   good; else it ends as escalated or failed.
   */
  lemma CancelledIff(w: World, c: Config, i: nat)
    requires CancelledDuring(w, c, i)
    ensures CancelIn(Run(w, c).log)
    ensures Run(w, c).state == Cancelled <==> !GivesUp(w, c, i)
    ensures Run(w, c).state != Cancelled ==> Run(w, c).state == GaveUpState(c)
  {
    hide Loop, TakeStep, GivesUp;
    LoopCancelledIff(w, c, 0, w.plan.steps, i);
    assert Run(w, c).log == Loop(w, c, 0, w.plan.steps, Running).log;
  }

  /** Other than at a plan step `cancel` can only come during planning, and counts unless planning fails. */
  lemma CancelledWhen(w: World, c: Config)
    requires CancelIn(Run(w, c).log)
    ensures w.planCancelled || exists i: nat :: CancelledDuring(w, c, i)
    ensures w.planCancelled ==> Run(w, c).state == if w.plan.NoPlan? then Failed else Cancelled
  {
    hide Loop, TakeStep;
    if w.plan.Plan? {
      var n := w.plan.steps;
      if w.planCancelled {
        LoopAfterCancel(w, c, 0, n, Cancelled);
      } else {
        assert Run(w, c).log == Loop(w, c, 0, n, Running).log;
        var i := LoopCancelledSomewhere(w, c, 0, n);
        assert CancelledDuring(w, c, i);
      }
    }
  }

  /** A cancel while the only attempt of the only step fails: the run ends as failed, or as escalated. */
  lemma CancelledRunCanFail(escalation: bool)
    ensures var w := World(Plan(1), false, i => true, (i, a) => Attempt(Fails("down"), true),
                           i => Reflection(GoOn, false));
            var o := Run(w, Config(0, 1000, 2, escalation));
            CancelIn(o.log) && o.state == if escalation then Escalated else Failed
  {
    var w := World(Plan(1), false, i => true, (i, a) => Attempt(Fails("down"), true), i => Reflection(GoOn, false));
    var c := Config(0, 1000, 2, escalation);
    assert Execute(w, 0, 0, 1, 1000, 2) == StepCall(Fails("down"), 1, [Attempted(0), CancelCalled]);
    assert TakeStep(w, c, 0).log[2] == CancelCalled;
    assert Run(w, c).log == TakeStep(w, c, 0).log;
  }

  // ---------- escalation and completion ----------

  lemma EscalatesOnlyWithoutRetries(w: World, c: Config, i: nat)
    ensures TakeStep(w, c, i).escalates ==> c.maxRetries == 0 && c.escalation
    ensures TakeStep(w, c, i).escalates ==> TakeStep(w, c, i).control == Leave
  {
  }

  lemma {:induction false} LoopEscalation(w: World, c: Config, i: nat, n: nat, state: State)
    requires state == Running || state == Cancelled
    ensures Loop(w, c, i, n, state).state == Escalated ==> c.maxRetries == 0 && c.escalation
    decreases n - i
  {
    hide TakeStep;
    if i < n && state != Cancelled {
      EscalatesOnlyWithoutRetries(w, c, i);
      if TakeStep(w, c, i).control == Next {
        LoopEscalation(w, c, i + 1, n, Watched(state, TakeStep(w, c, i).log));
      }
    }
  }

  /** A run escalates only when no retries are configured. */
  lemma RunEscalatesOnlyWithoutRetries(w: World, c: Config)
    ensures Run(w, c).state == Escalated ==> c.maxRetries == 0 && c.escalation
  {
    hide Loop;
    if w.plan.Plan? {
      LoopEscalation(w, c, 0, w.plan.steps, Watched(Running, Noted(w.planCancelled)));
    }
  }

  ghost predicate HasResultAt(results: seq<StepResult>, j: nat) {
    exists r :: 0 <= r < |results| && results[r].step == j
  }

  /** `results` holds a result for every step from `i` up to `k`, exclusive. */
  ghost predicate HasResultsFor(results: seq<StepResult>, i: nat, k: nat) {
    forall j: nat :: i <= j < k ==> HasResultAt(results, j)
  }

  lemma TurnRecordsItsStep(w: World, c: Config, i: nat)
    ensures var t := TakeStep(w, c, i);
            && (t.control == Next || (t.control == Leave && !t.escalates) ==> t.results != [])
            && (forall r :: 0 <= r < |t.results| ==> t.results[r].step == i)
            && (t.control == Leave && !t.escalates ==> w.reflections(i).verdict == Stop)
  {
    hide Execute;
  }

  /**
   A completed loop has a result for every step it came to, and stopped before the last one only because a
   reflection said so.
   */
  lemma {:induction false} LoopCompletion(w: World, c: Config, i: nat, n: nat, state: State) returns (k: nat)
    requires i <= n && state in {Running, Cancelled} && Loop(w, c, i, n, state).state == Completed
    ensures i <= k <= n && HasResultsFor(Loop(w, c, i, n, state).results, i, k)
    ensures k == n || (k > i && w.reflections(k - 1).verdict == Stop)
    decreases n - i
  {
    hide TakeStep;
    k := i;
    if i < n && state != Cancelled {
      var t := TakeStep(w, c, i);
      TurnRecordsItsStep(w, c, i);
      var all := Loop(w, c, i, n, state).results;
      if t.control == Next {
        k := LoopCompletion(w, c, i + 1, n, Watched(state, t.log));
        var later := Loop(w, c, i + 1, n, Watched(state, t.log)).results;
        forall j: nat | i <= j < k ensures HasResultAt(all, j) {
          if j == i {
            assert all[0].step == i;
          } else {
            assert HasResultAt(later, j);
            var r :| 0 <= r < |later| && later[r].step == j;
            assert all[|t.results| + r].step == j;
          }
        }
      } else {
        k := i + 1;
        assert all[0].step == i;
      }
    }
  }

  /** No step is skipped silently on the way to COMPLETED. */
  lemma CompletedRunDidEveryStep(w: World, c: Config)
    requires Run(w, c).state == Completed
    ensures w.plan.Plan?
    ensures exists k: nat ::
              && HasResultsFor(Run(w, c).results, 0, k)
              && (k == w.plan.steps || (0 < k < w.plan.steps && w.reflections(k - 1).verdict == Stop))
  {
    hide Loop;
    var k := LoopCompletion(w, c, 0, w.plan.steps, Watched(Running, Noted(w.planCancelled)));
    assert HasResultsFor(Run(w, c).results, 0, k);
  }
}
