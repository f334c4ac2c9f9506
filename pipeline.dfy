/**
 * The values of the step-pipeline engine and the event traces that a run
 * produces, stated as functions.
 *
 * A step's action and rollback action are caller code that the engine only
 * invokes. Their outcome is an oracle: `act(i, k)` says whether the action of
 * the step at position k returns normally on the item at position i, and
 * `rb(i, k)` the same for its rollback action. A run is observed through the
 * trace of events it emits: each call of a step's `execute` or `rollback`, and
 * each "Step failed" / "Rollback failed" report on the error stream.
 */
module Pipeline {

  datatype Option<T> = None | Some(value: T)

  /** What a Step holds: whether an action and a rollback action were set,
      its retry count and its optional flag. */
  datatype StepConfig = StepConfig(hasAction: bool, retries: int, optional: bool, hasRollback: bool)

  /** A freshly created Step: no action, no rollback, 0 retries, not optional. */
  const DefaultStep := StepConfig(false, 0, false, false)

  /** Outcome of caller code on (item position, step position): true when it returns normally. */
  type Oracle = (nat, nat) -> bool

  datatype Kind = Exec | ReportStepFail | Rollback | ReportRollbackFail

  datatype Event = Event(kind: Kind, item: nat, step: nat)

  /** `execute` returns normally only when an action is set and it does not throw;
      a missing action throws a NullPointerException, which the run catches. */
  predicate Succeeds(c: StepConfig, i: nat, k: nat, act: Oracle)
  {
    c.hasAction && act(i, k)
  }

  /** A failure that ends the item: the step is not optional and its execute threw. */
  predicate Fatal(c: StepConfig, i: nat, k: nat, act: Oracle)
  {
    !c.optional && !Succeeds(c, i, k, act)
  }

  /** `rollback` throws only when a rollback action is set and it throws. */
  predicate RollbackFails(c: StepConfig, i: nat, k: nat, rb: Oracle)
  {
    c.hasRollback && !rb(i, k)
  }

  /** The position of the first step at or after `from` whose failure is fatal for item i. */
  function FirstFatalFrom(cfgs: seq<StepConfig>, i: nat, act: Oracle, from: nat): (r: Option<nat>)
    decreases |cfgs| - from
    ensures r.Some? ==> from <= r.value < |cfgs| && Fatal(cfgs[r.value], i, r.value, act)
    ensures r.Some? ==> forall j :: from <= j < r.value ==> !Fatal(cfgs[j], i, j, act)
    ensures r.None? ==> forall j :: from <= j < |cfgs| ==> !Fatal(cfgs[j], i, j, act)
  {
    if from >= |cfgs| then None
    else if Fatal(cfgs[from], i, from, act) then Some(from)
    else FirstFatalFrom(cfgs, i, act, from + 1)
  }

  function FirstFatal(cfgs: seq<StepConfig>, i: nat, act: Oracle): Option<nat>
  {
    FirstFatalFrom(cfgs, i, act, 0)
  }

  /** Item i meets a fatal failure, so its sequence ends with a rollback. */
  predicate Aborts(cfgs: seq<StepConfig>, i: nat, act: Oracle)
  {
    FirstFatal(cfgs, i, act).Some?
  }

  /** The positions 0, 1, ..., m - 1. */
  function Upto(m: nat): (r: seq<nat>)
    ensures |r| == m && forall j :: 0 <= j < m ==> r[j] == j
  {
    if m == 0 then [] else Upto(m - 1) + [m - 1]
  }

  /** The positions k - 1, k - 2, ..., 0. */
  function Downfrom(k: nat): (r: seq<nat>)
    ensures |r| == k && forall j :: 0 <= j < k ==> r[j] == k - 1 - j
  {
    if k == 0 then [] else [k - 1] + Downfrom(k - 1)
  }

  /** The calls of `execute` on item i for steps 0 .. m - 1, in list order. */
  function Execs(i: nat, m: nat): seq<Event>
  {
    if m == 0 then [] else Execs(i, m - 1) + [Event(Exec, i, m - 1)]
  }

  /** One call of `rollback` on step j of item i, followed by a report if it threw. */
  function RollbackOne(cfgs: seq<StepConfig>, i: nat, j: nat, rb: Oracle): seq<Event>
    requires j < |cfgs|
  {
    [Event(Rollback, i, j)]
    + (if RollbackFails(cfgs[j], i, j, rb) then [Event(ReportRollbackFail, i, j)] else [])
  }

  /** Rolling back the steps before position k of item i, last one first. */
  function RollbackTrace(cfgs: seq<StepConfig>, i: nat, k: nat, rb: Oracle): seq<Event>
    requires k <= |cfgs|
  {
    if k == 0 then [] else RollbackOne(cfgs, i, k - 1, rb) + RollbackTrace(cfgs, i, k - 1, rb)
  }

  /** Step identity. A list may hold the same Step object more than once;
      `first[k]` is the first position holding the object at position k, so a list
      without repeats has `first[k] == k` everywhere. */
  predicate NoRepeats(first: seq<nat>)
  {
    forall k :: 0 <= k < |first| ==> first[k] == k
  }

  /** Rollback after a fatal failure at k walks back from the first position that
      holds the failing Step object, since that is where the search for it stops;
      a position that `first` does not cover counts as holding its own object. */
  function RollbackEnd(first: seq<nat>, k: nat): (r: nat)
    ensures r <= k
  {
    if k < |first| && first[k] <= k then first[k] else k
  }

  /** The events of one item's sequence: every step executed in order until the
      first fatal failure at k, which is reported and followed by the rollback of
      the steps before the failing one, last one first. */
  function ItemTrace(cfgs: seq<StepConfig>, first: seq<nat>, i: nat, act: Oracle, rb: Oracle): seq<Event>
  {
    match FirstFatal(cfgs, i, act)
    case None => Execs(i, |cfgs|)
    case Some(k) =>
      Execs(i, k + 1) + [Event(ReportStepFail, i, k)] + RollbackTrace(cfgs, i, RollbackEnd(first, k), rb)
  }

  /** Sequential mode from item i on: each item in turn, and nothing after an item that aborts. */
  function SequentialFrom(cfgs: seq<StepConfig>, first: seq<nat>, i: nat, n: nat, act: Oracle, rb: Oracle): seq<Event>
    decreases n - i
  {
    if i >= n then []
    else ItemTrace(cfgs, first, i, act, rb)
         + (if Aborts(cfgs, i, act) then [] else SequentialFrom(cfgs, first, i + 1, n, act, rb))
  }

  lemma SequentialFromUnfold(cfgs: seq<StepConfig>, first: seq<nat>, i: nat, n: nat, act: Oracle, rb: Oracle)
    requires i < n
    ensures SequentialFrom(cfgs, first, i, n, act, rb)
            == ItemTrace(cfgs, first, i, act, rb)
               + (if Aborts(cfgs, i, act) then [] else SequentialFrom(cfgs, first, i + 1, n, act, rb))
  {
  }

  function SequentialTrace(cfgs: seq<StepConfig>, first: seq<nat>, n: nat, act: Oracle, rb: Oracle): seq<Event>
  {
    SequentialFrom(cfgs, first, 0, n, act, rb)
  }

  /** Every item's own sequence, items i .. n - 1 one after another, whether or not one aborts. */
  function AllItemsFrom(cfgs: seq<StepConfig>, first: seq<nat>, i: nat, n: nat, act: Oracle, rb: Oracle): seq<Event>
    decreases n - i
  {
    if i >= n then [] else ItemTrace(cfgs, first, i, act, rb) + AllItemsFrom(cfgs, first, i + 1, n, act, rb)
  }

  /** The step positions of the events of one kind, in trace order. */
  function StepsOf(t: seq<Event>, kind: Kind): seq<nat>
  {
    if t == [] then []
    else (if t[0].kind == kind then [t[0].step] else []) + StepsOf(t[1..], kind)
  }
}
