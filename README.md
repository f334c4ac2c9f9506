# Step-pipeline worker

A model of the step-pipeline engine of `poc.worker.tabraham.Worker`. A
`Worker` holds an ordered list of `Step`s and applies every step to every item
of a list, in one of three execution modes.

- A step whose action throws is skipped silently when it is optional.
- When a non-optional step throws, the engine reports "Step failed" and then
  rolls back the steps before it, last one first.
- A rollback that throws is reported as "Rollback failed", and the earlier
  rollbacks still run.
- In sequential mode the first such failure ends the whole run.
- In concurrent mode every item is a task of its own, and a failure ends only
  that item's task.
- Workers are assembled with a fluent `WorkerBuilder` / `StepBuilder` pair.

## How the engine is represented

- **Actions are oracles.** Step actions are caller code that the engine only
  invokes.
  - `act(i, k)` says whether the action of the step at position `k` returns
    normally on the item at position `i`.
  - `rb(i, k)` says the same for that step's rollback action.
  - A step with no action set throws a `NullPointerException` on `execute`,
    which the run catches like any other exception, so it counts as a failure.
- **Steps have identity.** `rollback` looks for the failing `Step` object by
  reference. The step list therefore comes with `first`, where `first[k]` is the
  first position holding the same object as position k. In a list where no
  object repeats, `first[k] == k` everywhere.
- **A run is seen through its trace.** The trace is the sequence of events it
  emits:
  - `Exec(i, k)` is a call of `execute`;
  - `ReportStepFail(i, k)` is the "Step failed" line;
  - `Rollback(i, k)` is a call of `rollback`;
  - `ReportRollbackFail(i, k)` is the "Rollback failed" line.
- **Modules.**
  - `Pipeline` (`pipeline.dfy`) holds the values and the functions that define
    the traces, as specifications. These are the per-item sequence
    `ItemTrace`, the reverse rollback `RollbackTrace` and the sequential run
    `SequentialTrace`.
  - `Engine` (`engine.dfy`) holds the mutable `Step` and `Worker` classes. Each
    run method is imperative, as in the source, and its postcondition ties it
    to one of those functions.
  - `PipelineProperties` (`properties.dfy`) proves what the engine promises
    about those functions.
  - `Builders` (`builders.dfy`) holds the two builders and the demo pipeline
    built with them.

## Behaviour worth noting

- **Retries.** The retry count is stored but never read: every action is
  called at most once per item.
- **What is rolled back.** Every step before the failing one is rolled back,
  optional steps and steps that failed optionally included.
- **Optional failures.** An optional step's failure is not reported at all.
- **Sequential abort.** In sequential mode a fatal failure ends the whole run,
  so later items never start.
- **Repeated steps.** Calling `add()` twice on one `StepBuilder` puts the same
  `Step` object in the list twice. A fatal failure at the second occurrence
  then rolls back only the steps before the first occurrence.

## Model

| member | source | states |
|---|---|---|
| Pipeline.FirstFatalFrom | src/poc/worker/tabraham/Worker.java:50-58 | the step where an item's sequence stops is the first step at or after `from` that is not optional and whose action throws or is missing; no earlier step is such a step, and `None` means no step is |
| Engine.Step.constructor | src/poc/worker/tabraham/Worker.java:205-209 | a new step has no action, no rollback action, 0 retries and is not optional |
| Engine.Step.Execute | src/poc/worker/tabraham/Worker.java:243-245 | `execute` returns normally exactly when an action is set and it does not throw; the retry count is not involved |
| Engine.Step.Rollback | src/poc/worker/tabraham/Worker.java:247-251 | `rollback` throws exactly when a rollback action is set and throws; with none set it does nothing and cannot fail |
| Engine.Worker.constructor | src/poc/worker/tabraham/Worker.java:17-20 | a worker keeps the given step list and mode |
| Engine.Worker.Run | src/poc/worker/tabraham/Worker.java:34-46 | dispatches on the mode: the sequential trace, one per-item trace for each concurrent task, nothing in asynchronous mode |
| Engine.Worker.RunSequential | src/poc/worker/tabraham/Worker.java:48-62 | the nested loop with its early `return` emits exactly `SequentialTrace` over the worker's steps |
| Engine.Worker.RunItem | src/poc/worker/tabraham/Worker.java:68-78 | the per-item loop emits exactly `ItemTrace` (rollback walks back from the first position holding the failing Step object) and reports an abort exactly when some step fails fatally |
| Engine.Worker.RunConcurrently | src/poc/worker/tabraham/Worker.java:64-82 | every item's task emits that item's own `ItemTrace`, whatever other items do; nothing starts when the list is empty, because a pool of size 0 cannot be created |
| Engine.Worker.Rollback | src/poc/worker/tabraham/Worker.java:109-124 | searching for the failed `Step` by reference, then walking the collected steps backwards, emits exactly `RollbackTrace` up to the first position holding that object (all steps when it does not occur) |
| Engine.FirstIndexOf | src/poc/worker/tabraham/Worker.java:111-116 | the search by reference stops at the first position holding the object, or at the end of the list when no position does |
| Engine.DistinctNoRepeats | src/poc/worker/tabraham/Worker.java:111-116 | a list has no repeated Step object if and only if every position is its own first occurrence |
| PipelineProperties.ItemExecutesInOrder | src/poc/worker/tabraham/Worker.java:48-52 | steps execute in list order, each at most once: 0..n-1 when nothing fails fatally, otherwise 0..k where k is the first fatal failure |
| PipelineProperties.ItemRollsBackInReverse | src/poc/worker/tabraham/Worker.java:109-123 | on a fatal failure at k, rollback is called exactly on f-1, ..., 0 in that order, where f is the first position holding step k's object; that is k-1, ..., 0 when no object repeats; never on k or later; with no fatal failure it is never called |
| PipelineProperties.RepeatedStepRollsBackNothing | src/poc/worker/tabraham/Worker.java:111-116 | when one Step object fills positions 0 and 1 and position 1 fails fatally, nothing is rolled back, not even position 0 |
| PipelineProperties.ItemReportsOnlyFatal | src/poc/worker/tabraham/Worker.java:53-58 | "Step failed" is reported once, for the first fatal failure only, and never for an optional step |
| PipelineProperties.AllSucceedNoRollback | src/poc/worker/tabraham/Worker.java:50-52 | when every action succeeds, the item's trace is exactly one execute per step, in order |
| PipelineProperties.OptionalFailureIrrelevant | src/poc/worker/tabraham/Worker.java:53-54 | whether an optional step's action throws does not change the item's trace at all |
| PipelineProperties.OptionalFailureContinues | src/poc/worker/tabraham/Worker.java:53-54 | after a failing optional step the next step runs on the same item, and the failure is not reported |
| PipelineProperties.RollbackReportsFailures | src/poc/worker/tabraham/Worker.java:117-123 | "Rollback failed" is reported for step j if and only if j is rolled back and its rollback action is set and throws; a step without a rollback action is never reported |
| PipelineProperties.ItemTraceEvents | src/poc/worker/tabraham/Worker.java:68-78 | every event of an item's sequence is about that item and one of the worker's steps |
| PipelineProperties.ItemsIndependent | src/poc/worker/tabraham/Worker.java:66-79 | an item's sequence depends only on its own action and rollback outcomes, never on another item's |
| PipelineProperties.ItemRetriesIgnored | src/poc/worker/tabraham/Worker.java:243-245 | two step lists that differ only in retry counts give the same per-item trace |
| PipelineProperties.SequentialRetriesIgnored | src/poc/worker/tabraham/Worker.java:48-62 | two step lists that differ only in retry counts give the same sequential run |
| PipelineProperties.SequentialFromEvents | src/poc/worker/tabraham/Worker.java:48-62 | a sequential run from item i on only emits events of items i..n-1 |
| PipelineProperties.SequentialInInputOrder | src/poc/worker/tabraham/Worker.java:48-50 | items are processed in input order: item positions never decrease along the trace |
| PipelineProperties.SequentialStopsAtAbort | src/poc/worker/tabraham/Worker.java:53-57 | once item j fails fatally, no event of a later item follows |
| PipelineProperties.SequentialRunsUpToFirstAbort | src/poc/worker/tabraham/Worker.java:48-62 | the sequential run is every item's own sequence, in input order, up to and including the first item that aborts |
| PipelineProperties.SequentialSkipsWhatConcurrentRuns | src/poc/worker/tabraham/Worker.java:56-57 | after item j aborts, the sequential run never executes item j+1, while item j+1's concurrent task does |
| Builders.WorkerBuilder.constructor | src/poc/worker/tabraham/Worker.java:132-136 | a builder starts with an empty step list, the given mode and 10 threads |
| Builders.WorkerBuilder.Threads | src/poc/worker/tabraham/Worker.java:139-142 | records the thread count and changes nothing else |
| Builders.WorkerBuilder.Step | src/poc/worker/tabraham/Worker.java:144-146 | returns a builder for a fresh step, with default settings, bound to this builder and not yet in its list |
| Builders.WorkerBuilder.Build | src/poc/worker/tabraham/Worker.java:148-150 | the new worker has exactly the builder's steps in the same order and its mode; the thread count is dropped |
| Builders.StepBuilder.constructor | src/poc/worker/tabraham/Worker.java:173-176 | a step builder owns a fresh default step |
| Builders.StepBuilder.Action | src/poc/worker/tabraham/Worker.java:178-181 | sets only the action |
| Builders.StepBuilder.Retries | src/poc/worker/tabraham/Worker.java:183-186 | sets only the retry count |
| Builders.StepBuilder.Optional | src/poc/worker/tabraham/Worker.java:188-191 | sets only the optional flag, to true |
| Builders.StepBuilder.Rollback | src/poc/worker/tabraham/Worker.java:193-196 | sets only the rollback action |
| Builders.StepBuilder.Add | src/poc/worker/tabraham/Worker.java:198-201 | appends the step at the end of the builder's list, leaving the mode and thread count unchanged; the list stays free of repeats when the step was not already in it |
| Builders.InvoicePipeline | src/poc/worker/tabraham/WorkerProblem.java:51-59 | the demo's chain builds a sequential worker whose three steps are in declaration order, each with exactly the settings its chain gave it, and no two of them the same Step object |
| Builders.InvoiceSteps | src/poc/worker/tabraham/WorkerProblem.java:51-59 | the chain of `step()` ... `add()` calls leaves three different Step objects in the builder, in declaration order, with their settings |
| Builders.SameStepAddedTwice | src/poc/worker/tabraham/Worker.java:198-201 | calling `add()` twice on one step builder puts the same Step object at positions 0 and 1, so position 1's first occurrence is position 0 |

## Left out

- Thread-pool scheduling in `runConcurrently`, the pool size and `shutdown`: these are concurrency, so only each task's per-item body is modelled. The tasks' interleaving in time is not.
- The `IllegalArgumentException` that `runConcurrently` throws on an empty list is modelled only as "nothing starts".
- `runAsync`: its body is commented out, so it does nothing (`AsyncRun`).
- The static factories `sequential`, `concurrent` and `async`: they only call the builder constructor with a mode. The `dataClass` field and its getter are never read.
- The text of the `System.err` messages, including the exception message: each line is a report event.
- Aliasing: `build()` hands the builder's own list to the worker. The model copies the sequence, so a builder reused after `build` would not change an already built worker here.
- Throwables that are not `Exception`s, which the run does not catch, are not modelled; an action either returns normally or throws an `Exception`.
- Passing `null` to `action(...)` or `rollback(...)` is not modelled separately: a missing action is "no action set", and a missing rollback is "no rollback action".
- The demo's console input, its clock-based invoice numbers and the invoice arithmetic (`WorkerProblem.java`, `Invoice.java`) are I/O, clocks and floating point. Only the demo's pipeline construction is modelled.
