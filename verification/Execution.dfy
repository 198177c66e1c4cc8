/**
 The Plan/Act/Reflect loop (apps/runtime/executor.py) as a function of what its backends do: how each
 attempt of each plan step ends, what each reflection says, and during which of them somebody else calls
 `cancel`. `RuntimeExecutor.dfy` holds the object and is proved against these functions.

 Delays are in milliseconds and the backoff multiplier is a whole number.
 */
module Execution {
  datatype State = Idle | Running | Completed | Failed | Escalated | Cancelled

  datatype Ending = Succeeds(text: string) | Fails(error: string) | Interrupted

  // One awaited backend call: how it ends, and whether `cancel` was called while it was awaited.
  datatype Attempt = Attempt(ending: Ending, cancelled: bool)

  datatype Verdict = GoOn | Stop | Breaks(error: string) | Cut

  datatype Reflection = Reflection(verdict: Verdict, cancelled: bool)

  datatype Plan = Plan(steps: nat) | NoPlan(error: string) | PlanCut

  // `attempts(i, a)` is attempt number `a` at plan step `i`; `wellFormed(i)` says whether PlanStep accepts it.
  datatype World = World(
    plan: Plan,
    planCancelled: bool,
    wellFormed: nat -> bool,
    attempts: (nat, nat) -> Attempt,
    reflections: nat -> Reflection)

  datatype Config = Config(maxRetries: nat, initialDelay: nat, multiplier: nat, escalation: bool)

  datatype Event =
    | Started(step: nat)
    | Attempted(step: nat)
    | Slept(ms: nat)
    | Reflected(step: nat)
    | CancelCalled

  datatype StepResult = StepResult(step: nat, text: string)

  function Noted(cancelled: bool): seq<Event> {
    if cancelled then [CancelCalled] else []
  }

  // ---------- execute_step ----------

  // How a call of `execute_step` ends, how many attempts it made, and what could be seen of it.
  datatype StepCall = StepCall(ending: Ending, attempts: nat, log: seq<Event>)

  /** The next delay. */
  function Backoff(delay: nat, multiplier: nat): nat {
    delay * multiplier
  }

  /** Up to `allowed` attempts from attempt number `from` on, sleeping between failures. */
  function Execute(w: World, i: nat, from: nat, allowed: nat, delay: nat, multiplier: nat): StepCall
    requires allowed > 0
    decreases allowed
  {
    var a := w.attempts(i, from);
    var seen := [Attempted(i)] + Noted(a.cancelled);
    if !a.ending.Fails? || allowed == 1 then StepCall(a.ending, 1, seen)
    else
      var rest := Execute(w, i, from + 1, allowed - 1, Backoff(delay, multiplier), multiplier);
      StepCall(rest.ending, rest.attempts + 1, seen + [Slept(delay)] + rest.log)
  }

  // ---------- one turn of the loop ----------

  // What a turn does to the control flow: next step, leave the loop, fail the run, or an interrupt passes through.
  datatype Control = Next | Leave | Fail | Escape

  datatype Turn = Turn(control: Control, escalates: bool, results: seq<StepResult>, log: seq<Event>)

  /** The `except` branch: a second round with one retry less, or the end of the run. */
  function Recover(w: World, c: Config, i: nat, used: nat): Turn {
    if c.maxRetries > 0 then
      var again := Execute(w, i, used, c.maxRetries, c.initialDelay, c.multiplier);
      var log := [Slept(100)] + again.log;
      match again.ending
      case Succeeds(text) => Turn(Next, false, [StepResult(i, text)], log)
      case Fails(_) => Turn(Fail, false, [], log)
      case Interrupted => Turn(Escape, false, [], log)
    else if c.escalation then Turn(Leave, true, [], [])
    else Turn(Fail, false, [], [])
  }

  function Prefixed(results: seq<StepResult>, log: seq<Event>, t: Turn): Turn {
    t.(results := results + t.results, log := log + t.log)
  }

  function TakeStep(w: World, c: Config, i: nat): Turn {
    if !w.wellFormed(i) then Turn(Fail, false, [], [Started(i)])
    else
      var act := Execute(w, i, 0, c.maxRetries + 1, c.initialDelay, c.multiplier);
      var log := [Started(i)] + act.log;
      match act.ending
      case Interrupted => Turn(Escape, false, [], log)
      case Fails(_) => Prefixed([], log, Recover(w, c, i, act.attempts))
      case Succeeds(text) =>
        var done := [StepResult(i, text)];
        var r := w.reflections(i);
        var log' := log + [Reflected(i)] + Noted(r.cancelled);
        match r.verdict
        case GoOn => Turn(Next, false, done, log')
        case Stop => Turn(Leave, false, done, log')
        case Cut => Turn(Escape, false, done, log')
        case Breaks(_) => Prefixed(done, log', Recover(w, c, i, act.attempts))
  }

  // ---------- the run ----------

  datatype Outcome = Outcome(state: State, results: seq<StepResult>, log: seq<Event>)

  predicate CancelIn(log: seq<Event>) {
    CancelCalled in log
  }

  /** The state after events that leave the executor's own fields alone. */
  function Watched(state: State, log: seq<Event>): State {
    if CancelIn(log) then Cancelled else state
  }

  function Finished(state: State, results: seq<StepResult>, log: seq<Event>): Outcome {
    Outcome(if state == Running then Completed else state, results, log)
  }

  function Loop(w: World, c: Config, i: nat, n: nat, state: State): Outcome
    decreases n - i
  {
    if i >= n || state == Cancelled then Finished(state, [], [])
    else
      var t := TakeStep(w, c, i);
      var now := Watched(state, t.log);
      match t.control
      case Escape => Outcome(now, t.results, t.log)
      case Fail => Outcome(Failed, t.results, t.log)
      case Leave => Finished(if t.escalates then Escalated else now, t.results, t.log)
      case Next =>
        var rest := Loop(w, c, i + 1, n, now);
        Outcome(rest.state, t.results + rest.results, t.log + rest.log)
  }

  function Run(w: World, c: Config): Outcome {
    var log := Noted(w.planCancelled);
    var state := Watched(Running, log);
    match w.plan
    case NoPlan(_) => Outcome(Failed, [], log)
    case PlanCut => Outcome(state, [], log)
    case Plan(n) =>
      var rest := Loop(w, c, 0, n, state);
      rest.(log := log + rest.log)
  }
}
