/** The bounded agent loop. */
module LoopEngine {
  import opened Common

  const U32_MAX: int := 0xFFFF_FFFF
  const U64_MAX: int := 0xFFFF_FFFF_FFFF_FFFF

  type U32 = x: int | 0 <= x <= U32_MAX
  type U64 = x: int | 0 <= x <= U64_MAX

  datatype LoopAction =
    | ToolCall(tool: string)
    | Wait(durationMs: U64)
    | Complete(summary: string)
    | Error(recoverable: bool, message: string)

  datatype LoopLimits = LoopLimits(maxSteps: U32, maxToolCalls: U32, maxWaitMs: U64, maxErrors: U32)

  datatype Progress = Progress(steps: U32, toolCalls: U32, waitMs: U64, errors: U32, completed: bool,
                               haltReason: Option<string>)

  const START: Progress := Progress(0, 0, 0, 0, false, None)

  function SaturatingAdd32(a: U32, b: U32): U32 { Min(a + b, U32_MAX) }

  function SaturatingAdd64(a: U64, b: U64): U64 { Min(a + b, U64_MAX) }

  predicate Halted(p: Progress) { p.completed || p.haltReason.Some? }

  function Halt(p: Progress, reason: string): (Progress, Result<(), string>) {
    (p.(haltReason := Some(reason)), Err(reason))
  }

  function Applied(p: Progress, action: LoopAction, limits: LoopLimits): (Progress, Result<(), string>) {
    if Halted(p) then (p, Err("loop_already_halted"))
    else
      var q := p.(steps := SaturatingAdd32(p.steps, 1));
      if q.steps > limits.maxSteps then Halt(q, "max_steps_exceeded")
      else match action
        case ToolCall(_) =>
          var r := q.(toolCalls := SaturatingAdd32(q.toolCalls, 1));
          if r.toolCalls > limits.maxToolCalls then Halt(r, "max_tool_calls_exceeded") else (r, Ok(()))
        case Wait(ms) =>
          var r := q.(waitMs := SaturatingAdd64(q.waitMs, ms));
          if r.waitMs > limits.maxWaitMs then Halt(r, "max_wait_exceeded") else (r, Ok(()))
        case Error(recoverable, _) =>
          var r := q.(errors := SaturatingAdd32(q.errors, 1));
          if r.errors > limits.maxErrors then Halt(r, "max_errors_exceeded")
          else if recoverable then (r, Ok(()))
          else (r.(completed := true, haltReason := Some("non_recoverable_error")), Ok(()))
        case Complete(_) => (q.(completed := true), Ok(()))
  }

  class LoopState {
    var steps: U32
    var toolCalls: U32
    var waitMs: U64
    var errors: U32
    var completed: bool
    var haltReason: Option<string>

    ghost function View(): Progress
      reads this
    {
      Progress(steps, toolCalls, waitMs, errors, completed, haltReason)
    }

    constructor ()
      ensures View() == START
    {
      steps, toolCalls, waitMs, errors, completed, haltReason := 0, 0, 0, 0, false, None;
    }

    method Apply(action: LoopAction, limits: LoopLimits) returns (r: Result<(), string>)
      modifies this
      ensures (View(), r) == Applied(old(View()), action, limits)
    {
      if completed || haltReason.Some? {
        return Err("loop_already_halted");
      }
      steps := SaturatingAdd32(steps, 1);
      if steps > limits.maxSteps {
        haltReason := Some("max_steps_exceeded");
        return Err("max_steps_exceeded");
      }
      match action {
        case ToolCall(_) =>
          toolCalls := SaturatingAdd32(toolCalls, 1);
          if toolCalls > limits.maxToolCalls {
            haltReason := Some("max_tool_calls_exceeded");
            return Err("max_tool_calls_exceeded");
          }
        case Wait(durationMs) =>
          waitMs := SaturatingAdd64(waitMs, durationMs);
          if waitMs > limits.maxWaitMs {
            haltReason := Some("max_wait_exceeded");
            return Err("max_wait_exceeded");
          }
        case Error(recoverable, _) =>
          errors := SaturatingAdd32(errors, 1);
          if errors > limits.maxErrors {
            haltReason := Some("max_errors_exceeded");
            return Err("max_errors_exceeded");
          }
          if !recoverable {
            completed := true;
            haltReason := Some("non_recoverable_error");
          }
        case Complete(_) =>
          completed := true;
      }
      return Ok(());
    }
  }

  // ---- whole runs ----

  function Run(actions: seq<LoopAction>, limits: LoopLimits): Progress {
    if actions == [] then START else Applied(Run(actions[..|actions| - 1], limits), actions[|actions| - 1], limits).0
  }

  /** A run that is still going is within all four limits, and has counted every one of its actions. */
  lemma {:induction false} RunningIsWithinLimits(actions: seq<LoopAction>, limits: LoopLimits)
    requires !Halted(Run(actions, limits))
    ensures var p := Run(actions, limits);
            && p.steps <= limits.maxSteps && p.toolCalls <= limits.maxToolCalls
            && p.waitMs <= limits.maxWaitMs && p.errors <= limits.maxErrors
            && p.steps == Min(|actions|, U32_MAX)
  {
    if actions != [] { RunningIsWithinLimits(actions[..|actions| - 1], limits); }
  }

  // ---- what the counters count ----

  function ToolCalls(actions: seq<LoopAction>): nat {
    if actions == [] then 0
    else ToolCalls(actions[..|actions| - 1]) + (if actions[|actions| - 1].ToolCall? then 1 else 0)
  }

  function Errors(actions: seq<LoopAction>): nat {
    if actions == [] then 0 else Errors(actions[..|actions| - 1]) + (if actions[|actions| - 1].Error? then 1 else 0)
  }

  /** The milliseconds waited for altogether. */
  function Waited(actions: seq<LoopAction>): nat {
    if actions == [] then 0
    else
      var last := actions[|actions| - 1];
      Waited(actions[..|actions| - 1]) + (if last.Wait? then last.durationMs else 0)
  }

  /** An action after which there is nothing left to do. */
  predicate Ends(action: LoopAction) { action.Complete? || (action.Error? && !action.recoverable) }

  /** All counts, as far as they can be counted, are within the limits. */
  predicate WithinLimits(actions: seq<LoopAction>, limits: LoopLimits) {
    && Min(|actions|, U32_MAX) <= limits.maxSteps && Min(ToolCalls(actions), U32_MAX) <= limits.maxToolCalls
    && Min(Waited(actions), U64_MAX) <= limits.maxWaitMs && Min(Errors(actions), U32_MAX) <= limits.maxErrors
  }

  /** A loop goes on exactly as long as its counts are within the limits and no action has ended it, and then its
      counters are those counts. */
  lemma {:induction false} RunsOnIff(actions: seq<LoopAction>, limits: LoopLimits)
    ensures !Halted(Run(actions, limits)) <==>
            WithinLimits(actions, limits) && forall i :: 0 <= i < |actions| ==> !Ends(actions[i])
    ensures !Halted(Run(actions, limits)) ==>
              Run(actions, limits) == Progress(Min(|actions|, U32_MAX), Min(ToolCalls(actions), U32_MAX),
                                               Min(Waited(actions), U64_MAX), Min(Errors(actions), U32_MAX),
                                               false, None)
  {
    if actions != [] {
      var front, last := actions[..|actions| - 1], actions[|actions| - 1];
      RunsOnIff(front, limits);
      assert forall i :: 0 <= i < |front| ==> front[i] == actions[i];
      assert actions == front + [last];
    }
  }

  /** How a loop that was still going ends: completed by a final action, or halted at the first limit it exceeds, and
      the caller is told which. */
  lemma EndsFor(actions: seq<LoopAction>, action: LoopAction, limits: LoopLimits)
    requires !Halted(Run(actions, limits))
    ensures var (p, r) := Applied(Run(actions, limits), action, limits);
            var all := actions + [action];
            && p == Run(all, limits)
            && p.steps == Min(|all|, U32_MAX)
            && (if Min(|all|, U32_MAX) > limits.maxSteps then
                  !p.completed && p.haltReason == Some("max_steps_exceeded") && r == Err("max_steps_exceeded")
                else if Min(ToolCalls(all), U32_MAX) > limits.maxToolCalls then
                  !p.completed && p.haltReason == Some("max_tool_calls_exceeded") && r == Err("max_tool_calls_exceeded")
                else if Min(Waited(all), U64_MAX) > limits.maxWaitMs then
                  !p.completed && p.haltReason == Some("max_wait_exceeded") && r == Err("max_wait_exceeded")
                else if Min(Errors(all), U32_MAX) > limits.maxErrors then
                  !p.completed && p.haltReason == Some("max_errors_exceeded") && r == Err("max_errors_exceeded")
                else
                  && r == Ok(()) && (p.completed <==> Ends(action))
                  && p.haltReason == (if action.Error? && !action.recoverable then Some("non_recoverable_error")
                                      else None))
  {
    RunsOnIff(actions, limits);
    var all := actions + [action];
    assert all[..|all| - 1] == actions;
  }

  /** Once halted, further actions change nothing. */
  lemma {:induction false} HaltedStays(actions: seq<LoopAction>, more: seq<LoopAction>, limits: LoopLimits)
    requires Halted(Run(actions, limits))
    ensures Run(actions + more, limits) == Run(actions, limits)
    ensures forall a :: Applied(Run(actions, limits), a, limits).1 == Err("loop_already_halted")
    decreases |more|
  {
    if more == [] {
      assert actions + more == actions;
    } else {
      assert (actions + more)[..|actions + more| - 1] == actions + more[..|more| - 1];
      HaltedStays(actions, more[..|more| - 1], limits);
    }
  }

  function Idle(n: nat): seq<LoopAction> { seq(n, _ => Wait(0)) }

  /** With the largest step limit the saturated counter never exceeds it: waiting for nothing goes on for ever. */
  lemma {:induction false} SaturatedLoopRunsOn(n: nat, limits: LoopLimits)
    requires limits.maxSteps == U32_MAX
    ensures !Halted(Run(Idle(n), limits)) && Run(Idle(n), limits).waitMs == 0
  {
    if n > 0 {
      SaturatedLoopRunsOn(n - 1, limits);
      assert Idle(n)[..n - 1] == Idle(n - 1);
    }
  }

  /** Every run is halted by call maxSteps + 1, whatever the actions, exactly when the step limit is below the
      counter's ceiling. */
  lemma HaltsInTimeIff(limits: LoopLimits)
    ensures limits.maxSteps < U32_MAX <==>
            forall actions: seq<LoopAction> :: |actions| == limits.maxSteps + 1 ==> Halted(Run(actions, limits))
  {
    if limits.maxSteps < U32_MAX {
      forall actions: seq<LoopAction> | |actions| == limits.maxSteps + 1 ensures Halted(Run(actions, limits)) {
        if !Halted(Run(actions, limits)) { RunningIsWithinLimits(actions, limits); }
      }
    } else {
      SaturatedLoopRunsOn(limits.maxSteps + 1, limits);
      assert |Idle(limits.maxSteps + 1)| == limits.maxSteps + 1;
    }
  }
}
