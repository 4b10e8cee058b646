/** The aggregator that runs check steps and collects their `PrecommitError` messages. */
module Execution {
  import opened Text
  import opened Errors

  /** The message the executor records for a raised `PrecommitError`: its arguments joined by newlines. */
  function ErrorMessage(args: seq<string>): string {
    Join("\n", args)
  }

  /** The messages an executor collects from a sequence of step outcomes, in call order. */
  function Messages(steps: seq<StepResult>): seq<string> {
    if |steps| == 0 then []
    else
      var last := steps[|steps| - 1];
      Messages(steps[..|steps| - 1]) + (if last.Failed? then [ErrorMessage(last.args)] else [])
  }

  /** The positions of the steps that raised `PrecommitError`. */
  function FailedPositions(steps: seq<StepResult>): set<nat> {
    set i: nat | i < |steps| && steps[i].Failed?
  }

  /** Collecting over two runs of steps is collecting over each, in order. */
  lemma {:induction false} MessagesAppend(a: seq<StepResult>, b: seq<StepResult>)
    ensures Messages(a + b) == Messages(a) + Messages(b)
  {
    if |b| > 0 {
      var b' := b[..|b| - 1];
      assert (a + b)[..|a + b| - 1] == a + b';
      MessagesAppend(a, b');
    } else {
      assert a + b == a;
    }
  }

  /** There is exactly one message per step that raised `PrecommitError`. */
  lemma {:induction false} MessagesCount(steps: seq<StepResult>)
    ensures |Messages(steps)| == |FailedPositions(steps)|
  {
    if |steps| > 0 {
      var n := |steps| - 1;
      var init := steps[..n];
      MessagesCount(init);
      if steps[n].Failed? {
        assert FailedPositions(steps) == FailedPositions(init) + {n};
      } else {
        assert FailedPositions(steps) == FailedPositions(init);
      }
    } else {
      assert FailedPositions(steps) == {};
    }
  }

  /** No message is collected exactly when no step raised `PrecommitError`. */
  lemma {:induction false} MessagesEmpty(steps: seq<StepResult>)
    ensures Messages(steps) == [] <==> forall i :: 0 <= i < |steps| ==> !steps[i].Failed?
  {
    if |steps| > 0 {
      var n := |steps| - 1;
      MessagesEmpty(steps[..n]);
      assert forall i :: 0 <= i < n ==> steps[..n][i] == steps[i];
    }
  }

  /** A trace in which only the final step may have raised something other than `PrecommitError`. */
  predicate Halted(trace: seq<StepResult>) {
    forall i :: 0 <= i < |trace| - 1 ==> !trace[i].Crashed?
  }

  /**
   * The steps an executor actually runs when it is called on `steps` in order: all of them, or
   * those up to the first whose exception escapes.
   */
  function Run(steps: seq<StepResult>): (r: seq<StepResult>)
    ensures Halted(r) && r <= steps
    ensures |r| < |steps| ==> |r| > 0 && r[|r| - 1].Crashed?
    ensures (forall i :: 0 <= i < |steps| ==> !steps[i].Crashed?) ==> r == steps
  {
    if |steps| == 0 then []
    else if steps[0].Crashed? then [steps[0]]
    else
      assert forall i :: 0 <= i < |steps| - 1 ==> steps[1..][i] == steps[i + 1];
      [steps[0]] + Run(steps[1..])
  }

  /**
   * What a driver raises after running `trace` through an executor: the escaping exception if the
   * last step crashed, otherwise one `PrecommitError` with the merged messages if any were collected.
   */
  function Verdict(trace: seq<StepResult>, merge: seq<string> -> string): StepResult {
    if |trace| > 0 && trace[|trace| - 1].Crashed? then trace[|trace| - 1]
    else if Messages(trace) == [] then Passed
    else Failed([merge(Messages(trace))])
  }

  /** No step in `trace` raised anything other than `PrecommitError`. */
  predicate Clean(trace: seq<StepResult>) {
    forall i :: 0 <= i < |trace| ==> !trace[i].Crashed?
  }

  /** One more step after a clean trace: the trace is still halted, and a crash is what the driver raises. */
  lemma CleanSnoc(trace: seq<StepResult>, step: StepResult, merge: seq<string> -> string)
    requires Clean(trace)
    ensures Halted(trace + [step])
    ensures Clean(trace + [step]) <==> !step.Crashed?
    ensures step.Crashed? ==> Verdict(trace + [step], merge) == step
  {
    assert (trace + [step])[|trace|] == step;
  }

  /** Two calls in a row append both outcomes. */
  lemma SnocTwo(a: seq<StepResult>, x: StepResult, y: StepResult)
    ensures (a + [x]) + [y] == a + [x, y]
  {
  }

  /** Every step passed. */
  predicate AllPassed(trace: seq<StepResult>) {
    forall i :: 0 <= i < |trace| ==> trace[i].Passed?
  }

  /** A trace in which every step passed is clean, and the driver raises nothing. */
  lemma AllPassedVerdict(trace: seq<StepResult>, merge: seq<string> -> string)
    requires AllPassed(trace)
    ensures Clean(trace) && Verdict(trace, merge) == Passed
  {
    MessagesEmpty(trace);
  }

  lemma AllPassedAppend(a: seq<StepResult>, b: seq<StepResult>)
    requires AllPassed(a) && AllPassed(b)
    ensures AllPassed(a + b)
  {
    assert forall i :: 0 <= i < |b| ==> (a + b)[|a| + i] == b[i];
  }

  /** A clean trace followed by a halted one is halted, and clean exactly when the second one is. */
  lemma CleanAppend(a: seq<StepResult>, b: seq<StepResult>)
    requires Clean(a) && Halted(b)
    ensures Halted(a + b)
    ensures Clean(a + b) <==> Clean(b)
  {
    assert forall i :: 0 <= i < |b| ==> (a + b)[|a| + i] == b[i];
  }

  /**
   * The executor of `_executor.py`. `errorMessages` is never rebound: every call only
   * appends to it. `calls` records the outcome of every call so far.
   */
  class Executor {
    var errorMessages: seq<string>
    ghost var calls: seq<StepResult>

    /** The messages are those of the calls so far, one per `PrecommitError`, in call order. */
    ghost predicate Valid()
      reads this
    {
      errorMessages == Messages(calls)
    }

    constructor ()
      ensures Valid() && calls == []
      ensures errorMessages == []
    {
      errorMessages := [];
      calls := [];
    }

    /**
     * Runs a step that ended with `step`. A `PrecommitError` is caught and its message appended;
     * any other exception escapes and is returned in `escaped`.
     */
    method Call(step: StepResult) returns (escaped: Option<string>)
      requires Valid()
      modifies this
      ensures Valid() && calls == old(calls) + [step]
      ensures errorMessages == old(errorMessages) + Messages([step])
      ensures escaped == if step.Crashed? then Some(step.error) else None
    {
      MessagesAppend(calls, [step]);
      calls := calls + [step];
      match step
      case Passed =>
        escaped := None;
      case Failed(args) =>
        errorMessages := errorMessages + [ErrorMessage(args)];
        escaped := None;
      case Crashed(error) =>
        escaped := Some(error);
    }
  }

  /**
   * The end of a driver: the step that escaped, if any, is raised again; otherwise the collected
   * messages are merged into one `PrecommitError`, if there are any.
   */
  method Conclude(executor: Executor, escaped: Option<StepResult>, merge: seq<string> -> string) returns (result: StepResult)
    requires executor.Valid()
    requires Halted(executor.calls)
    requires escaped.None? <==> Clean(executor.calls)
    requires escaped.Some? ==> escaped.value == executor.calls[|executor.calls| - 1]
    ensures result == Verdict(executor.calls, merge)
  {
    if escaped.Some? {
      result := escaped.value;
    } else if |executor.errorMessages| > 0 {
      result := Failed([merge(executor.errorMessages)]);
    } else {
      result := Passed;
    }
  }
}
