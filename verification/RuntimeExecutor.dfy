/**
 The executor as the source has it: an object whose state, results and position are updated as the run
 goes on (apps/runtime/executor.py), proved against `Execution.Run`.

 `log` is what the run does to the outside, in order. A call of `cancel` by somebody else is made where
 the world says it came.
 */
module RuntimeExecutor {
  import opened Execution

  datatype TaskResult = NoResult | Answer(text: string) | Problem(error: string)

  class Executor {
    const world: World
    const config: Config
    var state: State
    var currentStepIndex: nat
    var stepResults: seq<StepResult>
    var result: TaskResult
    var escalationReason: string
    var log: seq<Event>

    constructor (world: World, config: Config)
      ensures state == Idle && stepResults == [] && log == [] && result == NoResult
      ensures this.world == world && this.config == config
    {
      this.world := world;
      this.config := config;
      state, currentStepIndex, stepResults, result, escalationReason, log := Idle, 0, [], NoResult, "", [];
    }

    method Start()
      modifies this`state
      ensures state == Running
    {
      state := Running;
    }

    method Complete(text: string)
      modifies this`state, this`result
      ensures state == Completed && result == Answer(text)
    {
      state, result := Completed, Answer(text);
    }

    method Fail(error: string)
      modifies this`state, this`result
      ensures state == Failed && result == Problem(error)
    {
      state, result := Failed, Problem(error);
    }

    method Escalate(reason: string)
      modifies this`state, this`result, this`escalationReason
      ensures state == Escalated && escalationReason == reason && result == Problem("Escalated: " + reason)
    {
      state, escalationReason, result := Escalated, reason, Problem("Escalated: " + reason);
    }

    method Cancel()
      modifies this`state, this`log
      ensures state == Cancelled && log == old(log) + [CancelCalled]
    {
      state, log := Cancelled, log + [CancelCalled];
    }

    method CancelIf(cancelled: bool)
      modifies this`state, this`log
      ensures log == old(log) + Noted(cancelled)
      ensures state == Watched(old(state), Noted(cancelled))
    {
      if cancelled {
        Cancel();
      }
    }

    /** One awaited backend call. */
    method Try(i: nat, a: nat) returns (ending: Ending)
      modifies this`state, this`log
      ensures ending == world.attempts(i, a).ending
      ensures log == old(log) + ([Attempted(i)] + Noted(world.attempts(i, a).cancelled))
      ensures state == Watched(old(state), [Attempted(i)] + Noted(world.attempts(i, a).cancelled))
    {
      var attempt := world.attempts(i, a);
      log := log + [Attempted(i)];
      CancelIf(attempt.cancelled);
      ending := attempt.ending;
    }

    /** `execute_step`: `used` attempts at this plan step were made before. */
    method ExecuteStep(i: nat, used: nat, maxRetries: nat) returns (ending: Ending, attempts: nat)
      modifies this`state, this`log
      ensures var e := Execute(world, i, used, maxRetries + 1, config.initialDelay, config.multiplier);
              ending == e.ending && attempts == e.attempts
              && log == old(log) + e.log && state == Watched(old(state), e.log)
    {
      hide Execute, Watched, CancelIn, Backoff, Noted;
      var delay: nat := config.initialDelay;
      attempts := 0;
      ghost var all := Execute(world, i, used, maxRetries + 1, delay, config.multiplier);
      ghost var rest := all;
      while true
        invariant attempts <= maxRetries
        invariant rest == Execute(world, i, used + attempts, maxRetries + 1 - attempts, delay, config.multiplier)
        invariant rest.ending == all.ending && attempts + rest.attempts == all.attempts
        invariant log + rest.log == old(log) + all.log
        invariant Watched(state, rest.log) == Watched(old(state), all.log)
        decreases maxRetries - attempts
      {
        ExecuteUnfolds(world, i, used + attempts, maxRetries + 1 - attempts, delay, config.multiplier, log, state);
        ending := Try(i, used + attempts);
        attempts := attempts + 1;
        if !ending.Fails? || attempts == maxRetries + 1 {
          return;
        }
        log := log + [Slept(delay)];
        delay := Backoff(delay, config.multiplier);
        rest := Execute(world, i, used + attempts, maxRetries + 1 - attempts, delay, config.multiplier);
      }
    }

    /** The `except` branch of `run`'s loop. */
    method Recover(i: nat, used: nat, error: string) returns (control: Control, problem: string)
      modifies this`state, this`log, this`stepResults, this`result, this`escalationReason
      ensures Follows(Execution.Recover(world, config, i, used), control, old(state), old(stepResults), old(log))
      ensures control == Leave ==> escalationReason == error && result == Problem("Escalated: " + error)
    {
      hide Execute;
      problem := error;
      if config.maxRetries > 0 {
        log := log + [Slept(100)];
        ghost var e := Execute(world, i, used, config.maxRetries, config.initialDelay, config.multiplier);
        var ending, _ := ExecuteStep(i, used, config.maxRetries - 1);
        assert log == old(log) + ([Slept(100)] + e.log);
        WatchedAppend(old(state), [Slept(100)], e.log);
        match ending
        case Succeeds(text) =>
          stepResults := stepResults + [StepResult(i, text)];
          control := Next;
        case Fails(again) =>
          control, problem := Control.Fail, again;
        case Interrupted =>
          control := Escape;
      } else if config.escalation {
        Escalate(error);
        control := Leave;
      } else {
        control := Control.Fail;
      }
    }

    /** One turn of `run`'s loop. */
    method TakeStep(i: nat) returns (control: Control, problem: string)
      modifies this
      ensures Follows(Execution.TakeStep(world, config, i), control, old(state), old(stepResults), old(log))
      ensures Execution.TakeStep(world, config, i).escalates ==> result == Problem("Escalated: " + escalationReason)
    {
      TurnEnds(world, config, i);
      hide Execute, Execution.Recover;
      problem := "";
      currentStepIndex := i;
      log := log + [Started(i)];
      if !world.wellFormed(i) {
        return Control.Fail, "invalid plan step";
      }
      ghost var act := Execute(world, i, 0, config.maxRetries + 1, config.initialDelay, config.multiplier);
      ghost var begun := [Started(i)] + act.log;
      var ending, attempts := ExecuteStep(i, 0, config.maxRetries);
      WatchedAppend(old(state), [Started(i)], act.log);
      assert log == old(log) + begun;
      match ending
      case Interrupted =>
        control := Escape;
      case Fails(error) =>
        control, problem := Recover(i, attempts, error);
        FollowsAfter(Execution.Recover(world, config, i, attempts), control, old(state), old(stepResults), old(log),
                     [], begun);
      case Succeeds(text) =>
        stepResults := stepResults + [StepResult(i, text)];
        var reflection := world.reflections(i);
        log := log + [Reflected(i)];
        CancelIf(reflection.cancelled);
        ghost var seen := begun + [Reflected(i)] + Noted(reflection.cancelled);
        WatchedAppend(old(state), begun, [Reflected(i)]);
        WatchedAppend(old(state), begun + [Reflected(i)], Noted(reflection.cancelled));
        assert log == old(log) + seen;
        match reflection.verdict {
          case GoOn => control := Next;
          case Stop => control := Leave;
          case Cut => control := Escape;
          case Breaks(error) =>
            control, problem := Recover(i, attempts, error);
            FollowsAfter(Execution.Recover(world, config, i, attempts), control, old(state), old(stepResults), old(log),
                         [StepResult(i, text)], seen);
        }
    }

    /** This object, after a turn `t` from the given fields: everything but the end of the run. */
    ghost predicate Follows(t: Turn, control: Control, state0: State, results0: seq<StepResult>, log0: seq<Event>)
      reads this
    {
      && control == t.control
      && stepResults == results0 + t.results
      && log == log0 + t.log
      && state == (if t.escalates then Escalated else Watched(state0, t.log))
    }

    /** A turn that goes on from earlier results and events. */
    lemma FollowsAfter(t: Turn, control: Control, state0: State, results0: seq<StepResult>, log0: seq<Event>,
                       results: seq<StepResult>, before: seq<Event>)
      requires Follows(t, control, Watched(state0, before), results0 + results, log0 + before)
      ensures Follows(Prefixed(results, before, t), control, state0, results0, log0)
    {
      WatchedAppend(state0, before, t.log);
    }

    /** `run`: plan, then act and reflect step by step, then complete if nothing else ended it. */
    method Run()
      modifies this
      ensures var o := Execution.Run(world, config);
              state == o.state && stepResults == old(stepResults) + o.results && log == old(log) + o.log
      ensures state == Completed ==> result == Answer(LastText(stepResults))
      ensures state == Escalated ==> result == Problem("Escalated: " + escalationReason)
      ensures state == Failed ==> result.Problem?
      ensures world.plan.NoPlan? ==> result == Problem(world.plan.error)
    {
      hide Execution.TakeStep;
      Start();
      CancelIf(world.planCancelled);
      assert state == Watched(Running, Noted(world.planCancelled));
      match world.plan
      case NoPlan(error) =>
        Fail(error);
      case PlanCut =>
      case Plan(n) =>
        var ok, problem := Steps(n);
        if !ok {
          Fail(problem);
        }
    }

    /** The loop of `run` and what follows it; false when the run fails. */
    method Steps(n: nat) returns (ok: bool, problem: string)
      requires state in {Running, Cancelled}
      modifies this
      ensures var o := Loop(world, config, 0, n, old(state));
              && stepResults == old(stepResults) + o.results && log == old(log) + o.log
              && (if ok then state == o.state else o.state == Failed)
      ensures ok && state == Completed ==> result == Answer(LastText(stepResults))
      ensures ok && state == Escalated ==> result == Problem("Escalated: " + escalationReason)
      ensures ok ==> state != Failed
    {
      hide Execution.TakeStep, Loop, Watched, LastText;
      forall k: nat, s | k >= n || s == Cancelled ensures Loop(world, config, k, n, s) == Finished(s, [], []) {
        LoopStops(world, config, k, n, s);
      }
      ok, problem := true, "";
      ghost var all := Loop(world, config, 0, n, state);
      ghost var got: seq<StepResult>, done: seq<Event> := [], [];
      var i: nat := 0;
      assert log == old(log) + done && stepResults == old(stepResults) + got;
      assert all.results == got + all.results && all.log == done + all.log;
      while i < n && state != Cancelled
        invariant i <= n && ok && state in {Running, Cancelled} && log == old(log) + done
        invariant stepResults == old(stepResults) + got
        invariant Resumes(all, Loop(world, config, i, n, state), got, done)
        decreases n - i
      {
        ghost var t := Execution.TakeStep(world, config, i);
        ghost var got0, done0 := got, done;
        TurnEnds(world, config, i);
        assert state == Running;
        var control, error := TakeStep(i);
        got, done := got + t.results, done + t.log;
        assert log == old(log) + done && stepResults == old(stepResults) + got;
        LoopUnfolds(world, config, i, n, Running, all, got0, done0);
        assert Watched(Running, t.log) in {Running, Cancelled} by { WatchedRunning(t.log); }
        match control {
          case Escape => return;
          case Fail => return false, error;
          case Leave => break;
          case Next => i := i + 1;
        }
      }
      if state == Running {
        Complete(LastText(stepResults));
      }
    }
  }

  lemma WatchedRunning(log: seq<Event>)
    ensures Watched(Running, log) in {Running, Cancelled}
  {
  }

  lemma LoopStops(w: World, c: Config, i: nat, n: nat, state: State)
    requires i >= n || state == Cancelled
    ensures Loop(w, c, i, n, state) == Finished(state, [], [])
  {
  }

  /** A `cancel` made before the run is forgotten: `start` overwrites it. */
  method CancelThenRun(world: World, config: Config) returns (state: State)
    ensures state == Execution.Run(world, config).state
    ensures world.plan == Plan(0) && !world.planCancelled ==> state == Completed
  {
    var executor := new Executor(world, config);
    executor.Cancel();
    executor.Run();
    return executor.state;
  }

  function LastText(results: seq<StepResult>): string {
    if results == [] then "" else results[|results| - 1].text
  }

  lemma WatchedAppend(state: State, a: seq<Event>, b: seq<Event>)
    ensures Watched(state, a + b) == Watched(Watched(state, a), b)
  {
  }

  /** One attempt of `execute_step` as seen from a log and a state it is made in. */
  lemma ExecuteUnfolds(w: World, i: nat, from: nat, allowed: nat, delay: nat, multiplier: nat,
                       log: seq<Event>, state: State)
    requires allowed > 0
    ensures var e := Execute(w, i, from, allowed, delay, multiplier);
            var a := w.attempts(i, from);
            var seen := [Attempted(i)] + Noted(a.cancelled);
            if !a.ending.Fails? || allowed == 1
            then e == StepCall(a.ending, 1, seen)
            else var rest := Execute(w, i, from + 1, allowed - 1, Backoff(delay, multiplier), multiplier);
                 && e.ending == rest.ending && e.attempts == rest.attempts + 1
                 && log + e.log == log + seen + [Slept(delay)] + rest.log
                 && Watched(state, e.log) == Watched(Watched(state, seen), rest.log)
  {
    var a := w.attempts(i, from);
    var seen := [Attempted(i)] + Noted(a.cancelled);
    if a.ending.Fails? && allowed > 1 {
      var rest := Execute(w, i, from + 1, allowed - 1, Backoff(delay, multiplier), multiplier);
      assert log + (seen + [Slept(delay)] + rest.log) == log + seen + [Slept(delay)] + rest.log;
      WatchedAppend(state, seen + [Slept(delay)], rest.log);
      WatchedAppend(state, seen, [Slept(delay)]);
    }
  }

  /** `all` is what was done so far followed by `rest`. */
  ghost predicate Resumes(all: Outcome, rest: Outcome, results: seq<StepResult>, done: seq<Event>) {
    all == Outcome(rest.state, results + rest.results, done + rest.log)
  }

  lemma TurnEnds(w: World, c: Config, i: nat)
    ensures Execution.TakeStep(w, c, i).escalates ==> Execution.TakeStep(w, c, i).control == Leave
  {
  }

  lemma LoopUnfolds(w: World, c: Config, i: nat, n: nat, state: State, all: Outcome,
                    results: seq<StepResult>, done: seq<Event>)
    requires i < n && state != Cancelled && Resumes(all, Loop(w, c, i, n, state), results, done)
    ensures var t := Execution.TakeStep(w, c, i);
            var now := Watched(state, t.log);
            var results', done' := results + t.results, done + t.log;
            match t.control
            case Escape => all == Outcome(now, results', done')
            case Fail => all == Outcome(Failed, results', done')
            case Leave => all == Finished(if t.escalates then Escalated else now, results', done')
            case Next => Resumes(all, Loop(w, c, i + 1, n, now), results', done')
  {
    hide Execution.TakeStep;
    var t := Execution.TakeStep(w, c, i);
    if t.control == Next {
      var rest := Loop(w, c, i + 1, n, Watched(state, t.log));
      assert results + (t.results + rest.results) == results + t.results + rest.results;
      assert done + (t.log + rest.log) == done + t.log + rest.log;
    }
  }
}
