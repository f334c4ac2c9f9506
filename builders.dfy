/**
 * The fluent configuration surface: a WorkerBuilder holds the list of steps
 * under construction, and a StepBuilder fills in one fresh Step and appends it
 * to that list. Each call mutates in place and returns the builder, so chains
 * read as in the source.
 */
module Builders {
  import opened Pipeline
  import opened Engine

  class WorkerBuilder {
    var steps: seq<Step>
    var executionMode: ExecutionMode
    var numberOfThreads: int

    /** A builder for the given mode with no steps and a thread count of 10. */
    constructor (executionMode: ExecutionMode)
      ensures steps == [] && this.executionMode == executionMode && numberOfThreads == 10
    {
      steps := [];
      this.executionMode := executionMode;
      numberOfThreads := 10;
    }

    /** Records the thread count; nothing else reads it. */
    method Threads(n: int) returns (r: WorkerBuilder)
      modifies this
      ensures r == this && numberOfThreads == n
      ensures steps == old(steps) && executionMode == old(executionMode)
    {
      numberOfThreads := n;
      r := this;
    }

    /** Starts a new step, with default settings, that `Add` appends to this builder. */
    method Step() returns (sb: StepBuilder)
      ensures fresh(sb) && fresh(sb.step) && sb.workerBuilder == this
      ensures sb.step.Config() == DefaultStep && sb.step !in steps
    {
      sb := new StepBuilder(this);
    }

    /** A worker over this builder's steps, in the order they were added, and its
        mode; the thread count is not passed on. */
    method Build() returns (w: Worker)
      ensures fresh(w) && w.steps == steps && w.executionMode == executionMode
    {
      w := new Worker(steps, executionMode);
    }
  }

  class StepBuilder {
    const workerBuilder: WorkerBuilder
    const step: Step

    constructor (workerBuilder: WorkerBuilder)
      ensures this.workerBuilder == workerBuilder
      ensures fresh(step) && step.Config() == DefaultStep
    {
      this.workerBuilder := workerBuilder;
      step := new Step();
    }

    /** Sets the step's action; what the action does is the run's oracle. */
    method Action() returns (r: StepBuilder)
      modifies step
      ensures r == this && step.Config() == old(step.Config()).(hasAction := true)
    {
      step.hasAction := true;
      r := this;
    }

    method Retries(n: int) returns (r: StepBuilder)
      modifies step
      ensures r == this && step.Config() == old(step.Config()).(retries := n)
    {
      step.retries := n;
      r := this;
    }

    method Optional() returns (r: StepBuilder)
      modifies step
      ensures r == this && step.Config() == old(step.Config()).(optional := true)
    {
      step.optional := true;
      r := this;
    }

    /** Sets the step's rollback action; what it does is the run's oracle. */
    method Rollback() returns (r: StepBuilder)
      modifies step
      ensures r == this && step.Config() == old(step.Config()).(hasRollback := true)
    {
      step.hasRollback := true;
      r := this;
    }

    /** Appends the step to the end of the worker builder's list. */
    method Add() returns (wb: WorkerBuilder)
      modifies workerBuilder
      ensures wb == workerBuilder
      ensures workerBuilder.steps == old(workerBuilder.steps) + [step]
      ensures workerBuilder.executionMode == old(workerBuilder.executionMode)
      ensures workerBuilder.numberOfThreads == old(workerBuilder.numberOfThreads)
      ensures Distinct(old(workerBuilder.steps)) && step !in old(workerBuilder.steps) ==> Distinct(workerBuilder.steps)
    {
      workerBuilder.steps := workerBuilder.steps + [step];
      wb := workerBuilder;
    }
  }

  /** The sequential invoice pipeline assembled by the command-line demo: an
      optional first step with 3 retries, a plain second step, and a third step
      with a rollback action. The worker's steps come out in declaration order,
      each with exactly the settings its chain gave it, and each a different
      Step object. */
  method InvoicePipeline() returns (w: Worker)
    ensures w.executionMode == Sequential
    ensures w.Configs() == [StepConfig(true, 3, true, false),
                            StepConfig(true, 0, false, false),
                            StepConfig(true, 0, false, true)]
    ensures Distinct(w.steps)
  {
    var wb := InvoiceSteps();
    w := wb.Build();
    ConfigsOfAt(w.steps, 0);
    ConfigsOfAt(w.steps, 1);
    ConfigsOfAt(w.steps, 2);
  }

  /** The demo's chain of `step()` ... `add()` calls, up to `build()`. */
  method InvoiceSteps() returns (wb: WorkerBuilder)
    ensures wb.executionMode == Sequential && |wb.steps| == 3
    ensures wb.steps[0] != wb.steps[1] && wb.steps[0] != wb.steps[2] && wb.steps[1] != wb.steps[2]
    ensures wb.steps[0].Config() == StepConfig(true, 3, true, false)
    ensures wb.steps[1].Config() == StepConfig(true, 0, false, false)
    ensures wb.steps[2].Config() == StepConfig(true, 0, false, true)
  {
    wb := new WorkerBuilder(Sequential);
    var sb := wb.Step();
    sb := sb.Action();
    sb := sb.Retries(3);
    sb := sb.Optional();
    wb := sb.Add();
    sb := wb.Step();
    sb := sb.Action();
    wb := sb.Add();
    sb := wb.Step();
    sb := sb.Action();
    sb := sb.Rollback();
    wb := sb.Add();
  }

  /** Calling `add` twice on one step builder puts the same Step object in the
      list twice: the second position's first occurrence is the first one, so a
      fatal failure there rolls back nothing, as the search by reference stops
      at position 0. */
  method SameStepAddedTwice() returns (w: Worker)
    ensures |w.steps| == 2 && w.steps[0] == w.steps[1]
    ensures w.Firsts() == [0, 0] && !Distinct(w.steps)
  {
    var wb := new WorkerBuilder(Sequential);
    var sb := wb.Step();
    sb := sb.Action();
    wb := sb.Add();
    wb := sb.Add();
    w := wb.Build();
    assert w.Firsts()[1] == FirstIndexOf(w.steps, w.steps[1]) == 0;
  }
}
