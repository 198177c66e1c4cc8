/** Where a run of the execution loop goes from a plan step, and how it ends. */
module ExecutionPath {
  import opened Execution
  import opened ExecutionBounds

  function First(w: World, c: Config, i: nat): StepCall {
    Execute(w, i, 0, c.maxRetries + 1, c.initialDelay, c.multiplier)
  }

  function Second(w: World, c: Config, i: nat): StepCall
    requires c.maxRetries > 0
  {
    Execute(w, i, First(w, c, i).attempts, c.maxRetries, c.initialDelay, c.multiplier)
  }

  /** The first round at the step ended in an error, or its reflection did. */
  predicate Wrong(w: World, c: Config, i: nat) {
    First(w, c, i).ending.Fails? || (First(w, c, i).ending.Succeeds? && w.reflections(i).verdict.Breaks?)
  }

  /** The step is done and its reflection says go on, or it went wrong and the second round repaired it. */
  predicate GoesOn(w: World, c: Config, i: nat) {
    && w.wellFormed(i)
    && (|| (First(w, c, i).ending.Succeeds? && w.reflections(i).verdict.GoOn?)
        || (Wrong(w, c, i) && c.maxRetries > 0 && Second(w, c, i).ending.Succeeds?))
  }

  /** The step is done and its reflection says stop. */
  predicate Stops(w: World, c: Config, i: nat) {
    w.wellFormed(i) && First(w, c, i).ending.Succeeds? && w.reflections(i).verdict.Stop?
  }

  predicate IsInterrupted(w: World, c: Config, i: nat) {
    && w.wellFormed(i)
    && (|| First(w, c, i).ending.Interrupted?
        || (First(w, c, i).ending.Succeeds? && w.reflections(i).verdict.Cut?)
        || (Wrong(w, c, i) && c.maxRetries > 0 && Second(w, c, i).ending.Interrupted?))
  }

  /** A turn goes on, stops, is interrupted, or fails for good, by what its rounds and its reflection did. */
  lemma TurnControl(w: World, c: Config, i: nat)
    ensures var t := TakeStep(w, c, i);
            && (t.control == Next <==> GoesOn(w, c, i))
            && (t.control == Leave && !t.escalates <==> Stops(w, c, i))
            && (t.control == Escape <==> IsInterrupted(w, c, i))
            && (t.control == Fail || t.escalates <==> !w.wellFormed(i) || GivesUp(w, c, i))
            && (t.escalates <==> w.wellFormed(i) && GivesUp(w, c, i) && c.maxRetries == 0 && c.escalation)
  {
    hide Execute;
  }

  ghost predicate AboutStep(e: Event, i: nat) {
    match e
    case Started(j) => j == i
    case Attempted(j) => j == i
    case Reflected(j) => j == i
    case _ => true
  }

  ghost predicate AllAbout(log: seq<Event>, i: nat) {
    forall e :: e in log ==> AboutStep(e, i)
  }

  lemma {:induction false} ExecuteIsAbout(w: World, i: nat, from: nat, allowed: nat, delay: nat, multiplier: nat)
    requires allowed > 0
    ensures AllAbout(Execute(w, i, from, allowed, delay, multiplier).log, i)
    ensures Attempted(i) in Execute(w, i, from, allowed, delay, multiplier).log
    decreases allowed
  {
    if w.attempts(i, from).ending.Fails? && allowed > 1 {
      ExecuteIsAbout(w, i, from + 1, allowed - 1, Backoff(delay, multiplier), multiplier);
    }
  }

  lemma TurnIsAbout(w: World, c: Config, i: nat)
    ensures AllAbout(TakeStep(w, c, i).log, i)
    ensures Started(i) in TakeStep(w, c, i).log
    ensures w.wellFormed(i) ==> Attempted(i) in TakeStep(w, c, i).log
  {
    hide Execute;
    if w.wellFormed(i) {
      ExecuteIsAbout(w, i, 0, c.maxRetries + 1, c.initialDelay, c.multiplier);
      if c.maxRetries > 0 {
        ExecuteIsAbout(w, i, First(w, c, i).attempts, c.maxRetries, c.initialDelay, c.multiplier);
      }
    }
  }

  /** What a turn records: the text of each round that succeeded. */
  lemma TurnRecords(w: World, c: Config, i: nat)
    requires w.wellFormed(i)
    ensures var first := First(w, c, i).ending;
            TakeStep(w, c, i).results
            == (if first.Succeeds? then [StepResult(i, first.text)] else [])
               + (if Wrong(w, c, i) && c.maxRetries > 0 && Second(w, c, i).ending.Succeeds?
                  then [StepResult(i, Second(w, c, i).ending.text)] else [])
  {
    hide Execute;
  }

  /** The sleeps of a turn: those of its first round, and before a second round's own ones 100 ms. */
  lemma TurnSleeps(w: World, c: Config, i: nat)
    requires w.wellFormed(i)
    ensures Sleeps(TakeStep(w, c, i).log)
         == Sleeps(First(w, c, i).log)
            + if Wrong(w, c, i) && c.maxRetries > 0 then [100] + Sleeps(Second(w, c, i).log) else []
  {
    hide Execute, Sleeps, AttemptsAt;
    var log := [Started(i)] + First(w, c, i).log;
    var reflected := [Reflected(i)] + Noted(w.reflections(i).cancelled);
    SmallLogs(i, i, w.reflections(i).cancelled, 100);
    SleeplessEvents(i, w.reflections(i).cancelled);
    LogAppend([Started(i)], First(w, c, i).log, i);
    LogAppend(log, reflected, i);
    assert log + [Reflected(i)] + Noted(w.reflections(i).cancelled) == log + reflected;
    if Wrong(w, c, i) {
      var again := Recover(w, c, i, First(w, c, i).attempts).log;
      LogAppend(log, again, i);
      LogAppend(log + reflected, again, i);
      if c.maxRetries > 0 {
        LogAppend([Slept(100)], Second(w, c, i).log, i);
        assert again == [Slept(100)] + Second(w, c, i).log;
      }
    }
    var slept := Sleeps(First(w, c, i).log);
    assert [] + slept == slept && slept + [] == slept;
    assert Sleeps(log) == slept && Sleeps(log + reflected) == slept;
  }

  lemma SleeplessEvents(i: nat, cancelled: bool)
    ensures Sleeps([]) == [] && Sleeps([Started(i)]) == []
    ensures Sleeps([Reflected(i)] + Noted(cancelled)) == []
  {
    LogAppend([Reflected(i)], Noted(cancelled), i);
  }

  // ---------- the run ----------

  /** The run comes to plan step `i`. */
  ghost predicate ComesTo(w: World, c: Config, i: nat) {
    && w.plan.Plan? && !w.planCancelled && i < w.plan.steps
    && forall j: nat :: j < i ==> Calm(w, c, j)
  }

  lemma {:induction false} LoopComesTo(w: World, c: Config, from: nat, n: nat, i: nat)
    requires from <= i < n && forall j: nat :: from <= j < i ==> Calm(w, c, j)
    ensures Started(i) in Loop(w, c, from, n, Running).log
    ensures w.wellFormed(i) ==> Attempted(i) in Loop(w, c, from, n, Running).log
    ensures !Calm(w, c, i) ==> forall e :: e in Loop(w, c, from, n, Running).log ==> NotBeyond(e, i)
    ensures !CancelIn(TakeStep(w, c, i).log) && (!GoesOn(w, c, i) || i + 1 == n) ==>
              Loop(w, c, from, n, Running).state == EndAt(w, c, i)
    decreases i - from
  {
    hide TakeStep, GoesOn, EndAt;
    var t := TakeStep(w, c, from);
    TurnIsAbout(w, c, from);
    if from == i {
      TurnControl(w, c, i);
      EndOfTurn(w, c, i);
    } else {
      assert Calm(w, c, from);
      LoopComesTo(w, c, from + 1, n, i);
    }
  }

  /** An event at a plan step no later than `i`. */
  ghost predicate NotBeyond(e: Event, i: nat) {
    match e
    case Started(j) => j <= i
    case Attempted(j) => j <= i
    case Reflected(j) => j <= i
    case _ => true
  }

  /** The state in which a run that is not cancelled ends if plan step `i` is its last. */
  ghost function EndAt(w: World, c: Config, i: nat): State {
    if GoesOn(w, c, i) || Stops(w, c, i) then Completed
    else if IsInterrupted(w, c, i) then Running
    else if !w.wellFormed(i) then Failed
    else GaveUpState(c)
  }

  lemma EndOfTurn(w: World, c: Config, i: nat)
    ensures var t := TakeStep(w, c, i);
            EndAt(w, c, i) == match t.control
                              case Next => Completed
                              case Leave => if t.escalates then Escalated else Completed
                              case Escape => Running
                              case Fail => Failed
  {
    hide Execute;
  }

  /**
   Once a run comes to a plan step it starts it and, unless the step is malformed, attempts it. It goes no
   further exactly if the step does not go on, or is the last one, or `cancel` is called while it runs.
   */
  lemma RunGoesOnIff(w: World, c: Config, i: nat)
    requires ComesTo(w, c, i)
    ensures Started(i) in Run(w, c).log && (w.wellFormed(i) ==> Attempted(i) in Run(w, c).log)
    ensures (forall e :: e in Run(w, c).log ==> NotBeyond(e, i))
       <==> !GoesOn(w, c, i) || CancelIn(TakeStep(w, c, i).log) || i + 1 == w.plan.steps
  {
    hide Loop, TakeStep, GoesOn, EndAt;
    var n := w.plan.steps;
    LoopComesTo(w, c, 0, n, i);
    TurnControl(w, c, i);
    assert Run(w, c).log == Loop(w, c, 0, n, Running).log;
    if Calm(w, c, i) && i + 1 < n {
      LoopComesTo(w, c, 0, n, i + 1);
      assert !NotBeyond(Started(i + 1), i);
    } else if Calm(w, c, i) {
      LoopStaysBelow(w, c, 0, n, Running);
    }
  }

  lemma {:induction false} LoopStaysBelow(w: World, c: Config, from: nat, n: nat, state: State)
    ensures forall e :: e in Loop(w, c, from, n, state).log ==> NotBeyond(e, if n > 0 then n - 1 else 0)
    decreases n - from
  {
    hide TakeStep;
    if from < n && state != Cancelled {
      var t := TakeStep(w, c, from);
      TurnIsAbout(w, c, from);
      if t.control == Next {
        LoopStaysBelow(w, c, from + 1, n, Watched(state, t.log));
      }
    }
  }

  /** How a run that is not cancelled ends: by its last step, or as completed if there is none. */
  lemma RunEndsAs(w: World, c: Config, i: nat)
    requires ComesTo(w, c, i) && !CancelIn(TakeStep(w, c, i).log)
    requires !GoesOn(w, c, i) || i + 1 == w.plan.steps
    ensures Run(w, c).state == EndAt(w, c, i)
  {
    hide Loop, TakeStep, GoesOn, EndAt;
    LoopComesTo(w, c, 0, w.plan.steps, i);
  }

  lemma RunWithoutSteps(w: World, c: Config)
    ensures w.plan == Plan(0) ==> Run(w, c).state == if w.planCancelled then Cancelled else Completed
    ensures w.plan.NoPlan? ==> Run(w, c).state == Failed
    ensures w.plan.PlanCut? ==> Run(w, c).state == if w.planCancelled then Cancelled else Running
    ensures !w.plan.Plan? || w.plan.steps == 0 || w.planCancelled ==>
              Run(w, c).results == [] && Run(w, c).log == Noted(w.planCancelled)
  {
  }

  /** Two steps that succeed, the first reflection saying stop: the second one is never started. */
  lemma StopSparesTheRest(text: string, c: Config)
    ensures var w := World(Plan(2), false, i => true, (i, a) => Attempt(Succeeds(text), false),
                           i => Reflection(Stop, false));
            var o := Run(w, c);
            o.state == Completed && o.results == [StepResult(0, text)] && Started(1) !in o.log && Attempted(1) !in o.log
  {
    var w := World(Plan(2), false, i => true, (i, a) => Attempt(Succeeds(text), false), i => Reflection(Stop, false));
    assert First(w, c, 0) == StepCall(Succeeds(text), 1, [Attempted(0)] + []);
    assert Loop(w, c, 0, 2, Running).results == TakeStep(w, c, 0).results;
  }
}
