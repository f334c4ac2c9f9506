/**
 * The engine itself: a Step object whose setters the builders call, and the
 * Worker that applies its list of steps to every item of a list. The run
 * methods change no state of their own; what they do is the trace they return,
 * and each is proved to return the trace that Pipeline specifies.
 */
module Engine {
  import opened Pipeline

  datatype ExecutionMode = Sequential | Concurrent | Async

  /** What `run` did: one trace for a sequential run, one trace per item task for
      a concurrent run (none started when the pool cannot be created), and
      nothing at all in asynchronous mode. */
  datatype RunOutcome =
    | SequentialRun(trace: seq<Event>)
    | ConcurrentRun(started: bool, traces: seq<seq<Event>>)
    | AsyncRun

  class Step {
    var hasAction: bool
    var retries: int
    var optional: bool
    var hasRollback: bool

    /** A new step: no action, no rollback action, 0 retries, not optional. */
    constructor ()
      ensures Config() == DefaultStep
    {
      hasAction, retries, optional, hasRollback := false, 0, false, false;
    }

    function Config(): StepConfig
      reads this
    {
      StepConfig(hasAction, retries, optional, hasRollback)
    }

    /** Runs the action once on item i (this step being at position k). A missing
        action fails as a thrown NullPointerException would; the retry count is
        not consulted. */
    method Execute(i: nat, k: nat, act: Oracle) returns (ok: bool)
      ensures ok <==> hasAction && act(i, k)
      ensures !hasAction ==> !ok
    {
      if !hasAction {
        ok := false;
      } else {
        ok := act(i, k);
      }
    }

    /** Runs the rollback action once, if one is set; with none set it does
        nothing and cannot fail. */
    method Rollback(i: nat, k: nat, rb: Oracle) returns (ok: bool)
      ensures ok <==> !RollbackFails(Config(), i, k, rb)
      ensures !hasRollback ==> ok
    {
      ok := true;
      if hasRollback {
        ok := rb(i, k);
      }
    }
  }

  function ConfigsOf(ss: seq<Step>): (r: seq<StepConfig>)
    reads ss
    ensures |r| == |ss|
  {
    if ss == [] then [] else [ss[0].Config()] + ConfigsOf(ss[1..])
  }

  lemma {:induction false} ConfigsOfAt(ss: seq<Step>, k: nat)
    requires k < |ss|
    ensures ConfigsOf(ss)[k] == ss[k].Config()
  {
    if k > 0 {
      ConfigsOfAt(ss[1..], k - 1);
    }
  }

  /** The position of the first occurrence of the object s in ss, or |ss| when it
      does not occur: where a search by reference, as `rollback` does it, stops. */
  function FirstIndexOf(ss: seq<Step>, s: Step): (r: nat)
    ensures r <= |ss|
    ensures r < |ss| ==> ss[r] == s
    ensures forall j :: 0 <= j < r ==> ss[j] != s
  {
    if ss == [] then 0 else if ss[0] == s then 0 else 1 + FirstIndexOf(ss[1..], s)
  }

  /** For every position, the first position holding the same Step object. */
  function FirstsOf(ss: seq<Step>): (r: seq<nat>)
    ensures |r| == |ss|
  {
    seq(|ss|, k requires 0 <= k < |ss| => FirstIndexOf(ss, ss[k]))
  }

  /** No Step object occurs twice in the list. */
  predicate Distinct(ss: seq<Step>)
  {
    forall a, b :: 0 <= a < b < |ss| ==> ss[a] != ss[b]
  }

  /** A list has no repeated Step object exactly when every step is its own
      first occurrence, so the identity-based rollback walks back from the
      failing position itself. */
  lemma DistinctNoRepeats(ss: seq<Step>)
    ensures Distinct(ss) <==> NoRepeats(FirstsOf(ss))
  {
    var f := FirstsOf(ss);
    if Distinct(ss) {
      forall k | 0 <= k < |f| ensures f[k] == k {
        assert ss[k] == ss[k];
      }
    }
    if NoRepeats(f) {
      forall a, b | 0 <= a < b < |ss| ensures ss[a] != ss[b] {
        assert f[b] == b;
      }
    }
  }

  class Worker {
    var steps: seq<Step>
    var executionMode: ExecutionMode

    constructor (steps: seq<Step>, executionMode: ExecutionMode)
      ensures this.steps == steps && this.executionMode == executionMode
    {
      this.steps := steps;
      this.executionMode := executionMode;
    }

    /** The steps as their getters report them, in list order. */
    function Configs(): seq<StepConfig>
      reads this, steps
    {
      ConfigsOf(steps)
    }

    /** Which positions of the list hold the same Step object. */
    function Firsts(): seq<nat>
      reads this
    {
      FirstsOf(steps)
    }

    /** Dispatches on the execution mode fixed at build time. */
    method Run<T>(data: seq<T>, act: Oracle, rb: Oracle) returns (out: RunOutcome)
      ensures executionMode == Sequential ==> out == SequentialRun(SequentialTrace(Configs(), Firsts(), |data|, act, rb))
      ensures executionMode == Concurrent ==>
                out.ConcurrentRun? && (out.started <==> |data| > 0) && |out.traces| == |data|
                && forall i :: 0 <= i < |data| ==> out.traces[i] == ItemTrace(Configs(), Firsts(), i, act, rb)
      ensures executionMode == Async ==> out == AsyncRun
    {
      match executionMode
      case Sequential =>
        var trace := RunSequential(data, act, rb);
        out := SequentialRun(trace);
      case Concurrent =>
        var started, traces := RunConcurrently(data, act, rb);
        out := ConcurrentRun(started, traces);
      case Async =>
        out := AsyncRun;
    }

    /** The sequence of one item (position i): execute every step in order; a
        failing optional step is passed over; the first failing non-optional step
        is reported, the steps before it are rolled back and the item stops.
        `aborted` tells the caller that this happened. */
    method RunItem(i: nat, act: Oracle, rb: Oracle) returns (trace: seq<Event>, aborted: bool)
      ensures trace == ItemTrace(Configs(), Firsts(), i, act, rb)
      ensures aborted <==> Aborts(Configs(), i, act)
    {
      ghost var cfgs := Configs();
      trace := [];
      var k := 0;
      while k < |steps|
        invariant 0 <= k <= |steps|
        invariant FirstFatal(cfgs, i, act) == FirstFatalFrom(cfgs, i, act, k)
        invariant trace == Execs(i, k)
      {
        var step := steps[k];
        ConfigsOfAt(steps, k);
        var ok := step.Execute(i, k, act);
        trace := trace + [Event(Exec, i, k)];
        if !ok && !step.optional {
          trace := trace + [Event(ReportStepFail, i, k)];
          var undo := Rollback(i, step, rb);
          assert RollbackEnd(Firsts(), k) == FirstIndexOf(steps, step);
          trace := trace + undo;
          aborted := true;
          return;
        }
        k := k + 1;
      }
      aborted := false;
    }

    /** Rolls back, last one first, the steps that come before the first
        occurrence of `failedStep` in the list (all of them when it does not
        occur). A rollback that throws is reported and the earlier ones still run;
        nothing propagates. */
    method Rollback(i: nat, failedStep: Step, rb: Oracle) returns (trace: seq<Event>)
      ensures trace == RollbackTrace(Configs(), i, FirstIndexOf(steps, failedStep), rb)
    {
      ghost var cfgs := Configs();
      var executed: seq<Step> := [];
      var j := 0;
      while j < |steps|
        invariant 0 <= j <= |steps|
        invariant forall jj :: 0 <= jj < j ==> steps[jj] != failedStep
        invariant executed == steps[..j]
      {
        if steps[j] == failedStep {
          break;
        }
        executed := executed + [steps[j]];
        j := j + 1;
      }
      ghost var m := |executed|;
      assert m == FirstIndexOf(steps, failedStep);
      trace := [];
      var t := |executed| - 1;
      while t >= 0
        invariant -1 <= t < m
        invariant Configs() == cfgs
        invariant trace + RollbackTrace(cfgs, i, t + 1, rb) == RollbackTrace(cfgs, i, m, rb)
      {
        assert executed[t] == steps[t];
        ConfigsOfAt(steps, t);
        var ok := executed[t].Rollback(i, t, rb);
        var one := [Event(Kind.Rollback, i, t)] + (if ok then [] else [Event(ReportRollbackFail, i, t)]);
        assert one == RollbackOne(cfgs, i, t, rb);
        ghost var earlier := RollbackTrace(cfgs, i, t, rb);
        assert RollbackTrace(cfgs, i, t + 1, rb) == one + earlier;
        assert trace + (one + earlier) == (trace + one) + earlier;
        trace := trace + one;
        t := t - 1;
      }
      assert trace + [] == trace;
    }

    /** Sequential mode: items one at a time in input order; the first fatal
        failure ends the whole run, not only its item. */
    method RunSequential<T>(data: seq<T>, act: Oracle, rb: Oracle) returns (trace: seq<Event>)
      ensures trace == SequentialTrace(Configs(), Firsts(), |data|, act, rb)
    {
      ghost var cfgs, firsts := Configs(), Firsts();
      trace := [];
      var i := 0;
      while i < |data|
        invariant 0 <= i <= |data|
        invariant Configs() == cfgs && Firsts() == firsts
        invariant trace + SequentialFrom(cfgs, firsts, i, |data|, act, rb) == SequentialTrace(cfgs, firsts, |data|, act, rb)
      {
        var t, aborted := RunItem(i, act, rb);
        SequentialFromUnfold(cfgs, firsts, i, |data|, act, rb);
        ghost var rest := if aborted then [] else SequentialFrom(cfgs, firsts, i + 1, |data|, act, rb);
        assert trace + SequentialFrom(cfgs, firsts, i, |data|, act, rb) == (trace + t) + rest;
        trace := trace + t;
        if aborted {
          return;
        }
        i := i + 1;
      }
    }

    /** Concurrent mode, without the pool's scheduling: one task per item, each
        running the per-item sequence, whose stop ends only that task. `traces[i]`
        is the trace of item i's task. A pool of min(10, |data|) threads cannot be
        created for an empty list, so then nothing starts (`started` is false). */
    method RunConcurrently<T>(data: seq<T>, act: Oracle, rb: Oracle) returns (started: bool, traces: seq<seq<Event>>)
      ensures started <==> |data| > 0
      ensures |traces| == |data|
      ensures forall i :: 0 <= i < |data| ==> traces[i] == ItemTrace(Configs(), Firsts(), i, act, rb)
    {
      traces := [];
      started := 0 < (if |data| < 10 then |data| else 10);
      if !started {
        return;
      }
      var i := 0;
      while i < |data|
        invariant 0 <= i <= |data|
        invariant |traces| == i
        invariant forall j :: 0 <= j < i ==> traces[j] == ItemTrace(Configs(), Firsts(), j, act, rb)
      {
        var t, _ := RunItem(i, act, rb);
        traces := traces + [t];
        i := i + 1;
      }
    }
  }
}
