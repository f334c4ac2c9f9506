/**
 * What the engine promises about the traces of Pipeline: execution order,
 * the reverse rollback, optional steps, retries, and how the sequential run
 * stops where the per-item body of the concurrent run does not.
 */
module PipelineProperties {
  import opened Pipeline

  // ---------------------------------------------------------------------
  // Projections of traces

  lemma {:induction false} StepsOfConcat(a: seq<Event>, b: seq<Event>, kind: Kind)
    ensures StepsOf(a + b, kind) == StepsOf(a, kind) + StepsOf(b, kind)
  {
    if a == [] {
      assert a + b == b;
    } else {
      var head := if a[0].kind == kind then [a[0].step] else [];
      assert (a + b)[1..] == a[1..] + b;
      calc {
        StepsOf(a + b, kind);
        head + StepsOf(a[1..] + b, kind);
        { StepsOfConcat(a[1..], b, kind); }
        head + (StepsOf(a[1..], kind) + StepsOf(b, kind));
        (head + StepsOf(a[1..], kind)) + StepsOf(b, kind);
      }
    }
  }

  lemma StepsOfSingleton(e: Event, kind: Kind)
    ensures StepsOf([e], kind) == if e.kind == kind then [e.step] else []
  {
    assert [e][1..] == [];
  }

  lemma {:induction false} ExecsSteps(i: nat, m: nat, kind: Kind)
    ensures StepsOf(Execs(i, m), kind) == if kind == Exec then Upto(m) else []
  {
    if m > 0 {
      StepsOfConcat(Execs(i, m - 1), [Event(Exec, i, m - 1)], kind);
      StepsOfSingleton(Event(Exec, i, m - 1), kind);
      ExecsSteps(i, m - 1, kind);
    }
  }

  lemma RollbackOneSteps(cfgs: seq<StepConfig>, i: nat, j: nat, rb: Oracle, kind: Kind)
    requires j < |cfgs|
    ensures kind == Rollback ==> StepsOf(RollbackOne(cfgs, i, j, rb), kind) == [j]
    ensures kind == Exec || kind == ReportStepFail ==> StepsOf(RollbackOne(cfgs, i, j, rb), kind) == []
  {
    var report := if RollbackFails(cfgs[j], i, j, rb) then [Event(ReportRollbackFail, i, j)] else [];
    StepsOfConcat([Event(Rollback, i, j)], report, kind);
    StepsOfSingleton(Event(Rollback, i, j), kind);
    StepsOfSingleton(Event(ReportRollbackFail, i, j), kind);
  }

  lemma {:induction false} RollbackTraceSteps(cfgs: seq<StepConfig>, i: nat, k: nat, rb: Oracle)
    requires k <= |cfgs|
    ensures StepsOf(RollbackTrace(cfgs, i, k, rb), Rollback) == Downfrom(k)
  {
    if k > 0 {
      var one := RollbackOne(cfgs, i, k - 1, rb);
      var rest := RollbackTrace(cfgs, i, k - 1, rb);
      assert RollbackTrace(cfgs, i, k, rb) == one + rest;
      StepsOfConcat(one, rest, Rollback);
      RollbackOneSteps(cfgs, i, k - 1, rb, Rollback);
      RollbackTraceSteps(cfgs, i, k - 1, rb);
    }
  }

  lemma RollbackTraceNoOther(cfgs: seq<StepConfig>, i: nat, k: nat, rb: Oracle, kind: Kind)
    requires k <= |cfgs| && (kind == Exec || kind == ReportStepFail)
    ensures StepsOf(RollbackTrace(cfgs, i, k, rb), kind) == []
  {
    RollbackTraceEvents(cfgs, i, k, rb);
    StepsOfNone(RollbackTrace(cfgs, i, k, rb), kind);
  }

  lemma {:induction false} StepsOfNone(t: seq<Event>, kind: Kind)
    requires forall e :: e in t ==> e.kind != kind
    ensures StepsOf(t, kind) == []
  {
    if t != [] {
      assert t[0] in t;
      assert forall e :: e in t[1..] ==> e in t;
      StepsOfNone(t[1..], kind);
    }
  }

  /** The projection of one item's trace onto a kind of event, piece by piece. */
  lemma ItemTraceSteps(cfgs: seq<StepConfig>, first: seq<nat>, i: nat, act: Oracle, rb: Oracle, kind: Kind)
    ensures FirstFatal(cfgs, i, act).None? ==>
              StepsOf(ItemTrace(cfgs, first, i, act, rb), kind) == StepsOf(Execs(i, |cfgs|), kind)
    ensures FirstFatal(cfgs, i, act).Some? ==>
              var k := FirstFatal(cfgs, i, act).value;
              StepsOf(ItemTrace(cfgs, first, i, act, rb), kind)
              == StepsOf(Execs(i, k + 1), kind) + StepsOf([Event(ReportStepFail, i, k)], kind)
                 + StepsOf(RollbackTrace(cfgs, i, RollbackEnd(first, k), rb), kind)
  {
    match FirstFatal(cfgs, i, act)
    case None =>
    case Some(k) =>
      StepsOfConcat(Execs(i, k + 1), [Event(ReportStepFail, i, k)], kind);
      StepsOfConcat(Execs(i, k + 1) + [Event(ReportStepFail, i, k)], RollbackTrace(cfgs, i, RollbackEnd(first, k), rb), kind);
  }

  // ---------------------------------------------------------------------
  // One item's sequence

  /** Steps execute in list order, each at most once: every step when nothing
      fails fatally, else steps 0 .. k where k is the first fatal failure. */
  lemma ItemExecutesInOrder(cfgs: seq<StepConfig>, first: seq<nat>, i: nat, act: Oracle, rb: Oracle)
    ensures FirstFatal(cfgs, i, act).None? ==> StepsOf(ItemTrace(cfgs, first, i, act, rb), Exec) == Upto(|cfgs|)
    ensures FirstFatal(cfgs, i, act).Some? ==>
              StepsOf(ItemTrace(cfgs, first, i, act, rb), Exec) == Upto(FirstFatal(cfgs, i, act).value + 1)
  {
    ItemTraceSteps(cfgs, first, i, act, rb, Exec);
    match FirstFatal(cfgs, i, act)
    case None =>
      ExecsSteps(i, |cfgs|, Exec);
    case Some(k) =>
      ExecsSteps(i, k + 1, Exec);
      StepsOfSingleton(Event(ReportStepFail, i, k), Exec);
      RollbackTraceNoOther(cfgs, i, RollbackEnd(first, k), rb, Exec);
  }

  /** On the first fatal failure at k, `rollback` is called once on each of the
      steps k - 1, k - 2, ..., 0 in that order, never on k or a later step, and
      whatever the rollback actions do; with no fatal failure it is never called.
      When the failing Step object already sits at an earlier position f, the
      walk stops there instead and only f - 1, ..., 0 are rolled back. */
  lemma ItemRollsBackInReverse(cfgs: seq<StepConfig>, first: seq<nat>, i: nat, act: Oracle, rb: Oracle)
    ensures FirstFatal(cfgs, i, act).None? ==> StepsOf(ItemTrace(cfgs, first, i, act, rb), Rollback) == []
    ensures FirstFatal(cfgs, i, act).Some? ==>
              StepsOf(ItemTrace(cfgs, first, i, act, rb), Rollback)
              == Downfrom(RollbackEnd(first, FirstFatal(cfgs, i, act).value))
    ensures FirstFatal(cfgs, i, act).Some? && NoRepeats(first) && |first| == |cfgs| ==>
              StepsOf(ItemTrace(cfgs, first, i, act, rb), Rollback) == Downfrom(FirstFatal(cfgs, i, act).value)
  {
    ItemTraceSteps(cfgs, first, i, act, rb, Rollback);
    match FirstFatal(cfgs, i, act)
    case None =>
      ExecsSteps(i, |cfgs|, Rollback);
    case Some(k) =>
      ExecsSteps(i, k + 1, Rollback);
      StepsOfSingleton(Event(ReportStepFail, i, k), Rollback);
      RollbackTraceSteps(cfgs, i, RollbackEnd(first, k), rb);
  }

  /** With the same Step object at positions 0 and 1, a fatal failure at
      position 1 rolls back nothing: the search for the failing step stops at
      its first occurrence, position 0, before any step is collected. */
  lemma RepeatedStepRollsBackNothing(cfgs: seq<StepConfig>, i: nat, act: Oracle, rb: Oracle)
    requires |cfgs| == 2 && FirstFatal(cfgs, i, act) == Some(1)
    ensures StepsOf(ItemTrace(cfgs, [0, 0], i, act, rb), Rollback) == []
    ensures Event(Rollback, i, 0) !in ItemTrace(cfgs, [0, 0], i, act, rb)
  {
    ItemRollsBackInReverse(cfgs, [0, 0], i, act, rb);
    if Event(Rollback, i, 0) in ItemTrace(cfgs, [0, 0], i, act, rb) {
      StepsOfHas(ItemTrace(cfgs, [0, 0], i, act, rb), Event(Rollback, i, 0));
    }
  }

  /** "Step failed" is reported exactly once, for the first fatal failure, and
      never for a failing optional step. */
  lemma ItemReportsOnlyFatal(cfgs: seq<StepConfig>, first: seq<nat>, i: nat, act: Oracle, rb: Oracle)
    ensures FirstFatal(cfgs, i, act).None? ==> StepsOf(ItemTrace(cfgs, first, i, act, rb), ReportStepFail) == []
    ensures FirstFatal(cfgs, i, act).Some? ==>
              StepsOf(ItemTrace(cfgs, first, i, act, rb), ReportStepFail) == [FirstFatal(cfgs, i, act).value]
  {
    ItemTraceSteps(cfgs, first, i, act, rb, ReportStepFail);
    match FirstFatal(cfgs, i, act)
    case None =>
      ExecsSteps(i, |cfgs|, ReportStepFail);
    case Some(k) =>
      ExecsSteps(i, k + 1, ReportStepFail);
      StepsOfSingleton(Event(ReportStepFail, i, k), ReportStepFail);
      RollbackTraceNoOther(cfgs, i, RollbackEnd(first, k), rb, ReportStepFail);
  }

  /** Every event of a per-item sequence is about that item and one of its steps. */
  lemma ItemTraceEvents(cfgs: seq<StepConfig>, first: seq<nat>, i: nat, act: Oracle, rb: Oracle)
    ensures forall e :: e in ItemTrace(cfgs, first, i, act, rb) ==> e.item == i && e.step < |cfgs|
  {
    match FirstFatal(cfgs, i, act)
    case None =>
      ExecsEvents(i, |cfgs|);
    case Some(k) =>
      ExecsEvents(i, k + 1);
      RollbackTraceEvents(cfgs, i, RollbackEnd(first, k), rb);
  }

  lemma {:induction false} ExecsEvents(i: nat, m: nat)
    ensures forall e :: e in Execs(i, m) ==> e.item == i && e.step < m
  {
    if m > 0 {
      ExecsEvents(i, m - 1);
    }
  }

  lemma {:induction false} RollbackTraceEvents(cfgs: seq<StepConfig>, i: nat, k: nat, rb: Oracle)
    requires k <= |cfgs|
    ensures forall e :: e in RollbackTrace(cfgs, i, k, rb) ==>
              e.item == i && e.step < k && (e.kind == Rollback || e.kind == ReportRollbackFail)
  {
    if k > 0 {
      RollbackTraceEvents(cfgs, i, k - 1, rb);
    }
  }

  /** When every step has an action and every action returns normally, each step
      executes exactly once in list order and nothing else happens. */
  lemma AllSucceedNoRollback(cfgs: seq<StepConfig>, first: seq<nat>, i: nat, act: Oracle, rb: Oracle)
    requires forall k :: 0 <= k < |cfgs| ==> Succeeds(cfgs[k], i, k, act)
    ensures ItemTrace(cfgs, first, i, act, rb) == Execs(i, |cfgs|)
  {
    assert FirstFatal(cfgs, i, act).None?;
  }

  /** Rollback reporting: `rollback` on step j reports "Rollback failed" exactly
      when j is rolled back, has a rollback action and that action throws; a step
      without a rollback action is never reported. */
  lemma {:induction false} RollbackReportsFailures(cfgs: seq<StepConfig>, i: nat, k: nat, rb: Oracle, j: nat)
    requires k <= |cfgs| && j < |cfgs|
    ensures (Event(ReportRollbackFail, i, j) in RollbackTrace(cfgs, i, k, rb))
            <==> (j < k && RollbackFails(cfgs[j], i, j, rb))
    ensures !cfgs[j].hasRollback ==> Event(ReportRollbackFail, i, j) !in RollbackTrace(cfgs, i, k, rb)
  {
    if k > 0 {
      RollbackReportsFailures(cfgs, i, k - 1, rb, j);
    }
  }

  // ---------------------------------------------------------------------
  // What a step's outcome can and cannot change

  lemma {:induction false} FirstFatalAgree(c1: seq<StepConfig>, c2: seq<StepConfig>, i: nat,
                                           a1: Oracle, a2: Oracle, from: nat)
    requires |c1| == |c2|
    requires forall j :: from <= j < |c1| ==> Fatal(c1[j], i, j, a1) == Fatal(c2[j], i, j, a2)
    ensures FirstFatalFrom(c1, i, a1, from) == FirstFatalFrom(c2, i, a2, from)
    decreases |c1| - from
  {
    if from < |c1| {
      FirstFatalAgree(c1, c2, i, a1, a2, from + 1);
    }
  }

  lemma {:induction false} RollbackTraceAgree(c1: seq<StepConfig>, c2: seq<StepConfig>, i: nat,
                                              r1: Oracle, r2: Oracle, k: nat)
    requires k <= |c1| == |c2|
    requires forall j :: 0 <= j < k ==> RollbackFails(c1[j], i, j, r1) == RollbackFails(c2[j], i, j, r2)
    ensures RollbackTrace(c1, i, k, r1) == RollbackTrace(c2, i, k, r2)
  {
    if k > 0 {
      RollbackTraceAgree(c1, c2, i, r1, r2, k - 1);
    }
  }

  /** A failing optional step triggers no report and no rollback: whether its
      action throws or not, the item's trace is the same. */
  lemma OptionalFailureIrrelevant(cfgs: seq<StepConfig>, first: seq<nat>, i: nat, k: nat, act: Oracle, act2: Oracle, rb: Oracle)
    requires k < |cfgs| && cfgs[k].optional
    requires forall j: nat :: j != k ==> act(i, j) == act2(i, j)
    ensures ItemTrace(cfgs, first, i, act, rb) == ItemTrace(cfgs, first, i, act2, rb)
  {
    FirstFatalAgree(cfgs, cfgs, i, act, act2, 0);
  }

  /** After a failing optional step, with no fatal failure before it, the next
      step is executed on the same item and the failure is not reported. */
  lemma OptionalFailureContinues(cfgs: seq<StepConfig>, first: seq<nat>, i: nat, k: nat, act: Oracle, rb: Oracle)
    requires k + 1 < |cfgs| && cfgs[k].optional && !Succeeds(cfgs[k], i, k, act)
    requires forall j :: 0 <= j < k ==> !Fatal(cfgs[j], i, j, act)
    ensures Event(Exec, i, k + 1) in ItemTrace(cfgs, first, i, act, rb)
    ensures Event(ReportStepFail, i, k) !in ItemTrace(cfgs, first, i, act, rb)
  {
    var t := ItemTrace(cfgs, first, i, act, rb);
    ItemExecutesInOrder(cfgs, first, i, act, rb);
    ItemReportsOnlyFatal(cfgs, first, i, act, rb);
    var f := FirstFatal(cfgs, i, act);
    assert f.Some? ==> f.value > k;
    var ex := StepsOf(t, Exec);
    assert k + 1 < |ex| && ex[k + 1] == k + 1;
    StepsOfMember(t, Exec, k + 1);
    ItemTraceEvents(cfgs, first, i, act, rb);
    var e :| e in t && e.kind == Exec && e.step == k + 1;
    assert e == Event(Exec, i, k + 1);
    if Event(ReportStepFail, i, k) in t {
      StepsOfHas(t, Event(ReportStepFail, i, k));
      assert false;
    }
  }

  /** An element of a projection comes from an event of that kind, here of item i. */
  lemma {:induction false} StepsOfMember(t: seq<Event>, kind: Kind, s: nat)
    requires s in StepsOf(t, kind)
    ensures exists e :: e in t && e.kind == kind && e.step == s
  {
    if t[0].kind == kind && t[0].step == s {
      assert t[0] in t;
    } else {
      StepsOfMember(t[1..], kind, s);
      var e :| e in t[1..] && e.kind == kind && e.step == s;
      assert e in t;
    }
  }

  lemma {:induction false} StepsOfHas(t: seq<Event>, e: Event)
    requires e in t
    ensures e.step in StepsOf(t, e.kind)
  {
    if t[0] != e {
      StepsOfHas(t[1..], e);
    }
  }

  /** One item's sequence depends only on that item's action and rollback
      outcomes, never on another item's. */
  lemma ItemsIndependent(cfgs: seq<StepConfig>, first: seq<nat>, i: nat, act: Oracle, act2: Oracle, rb: Oracle, rb2: Oracle)
    requires forall k: nat :: act(i, k) == act2(i, k) && rb(i, k) == rb2(i, k)
    ensures ItemTrace(cfgs, first, i, act, rb) == ItemTrace(cfgs, first, i, act2, rb2)
  {
    FirstFatalAgree(cfgs, cfgs, i, act, act2, 0);
    match FirstFatal(cfgs, i, act)
    case None =>
    case Some(k) =>
      RollbackTraceAgree(cfgs, cfgs, i, rb, rb2, RollbackEnd(first, k));
  }

  /** Steps that agree in everything but their retry count. */
  predicate SameButRetries(c1: seq<StepConfig>, c2: seq<StepConfig>)
  {
    |c1| == |c2|
    && forall k :: 0 <= k < |c1| ==>
         c1[k].hasAction == c2[k].hasAction && c1[k].optional == c2[k].optional
         && c1[k].hasRollback == c2[k].hasRollback
  }

  /** The retry count has no effect on one item's sequence. */
  lemma ItemRetriesIgnored(c1: seq<StepConfig>, c2: seq<StepConfig>, first: seq<nat>, i: nat, act: Oracle, rb: Oracle)
    requires SameButRetries(c1, c2)
    ensures ItemTrace(c1, first, i, act, rb) == ItemTrace(c2, first, i, act, rb)
  {
    FirstFatalAgree(c1, c2, i, act, act, 0);
    match FirstFatal(c1, i, act)
    case None =>
    case Some(k) =>
      RollbackTraceAgree(c1, c2, i, rb, rb, RollbackEnd(first, k));
  }

  /** The retry count has no effect on a sequential run: each action is still
      called at most once per item. */
  lemma {:induction false} SequentialRetriesIgnored(c1: seq<StepConfig>, c2: seq<StepConfig>, first: seq<nat>, i: nat, n: nat,
                                                    act: Oracle, rb: Oracle)
    requires SameButRetries(c1, c2)
    ensures SequentialFrom(c1, first, i, n, act, rb) == SequentialFrom(c2, first, i, n, act, rb)
    decreases n - i
  {
    if i < n {
      ItemRetriesIgnored(c1, c2, first, i, act, rb);
      FirstFatalAgree(c1, c2, i, act, act, 0);
      SequentialRetriesIgnored(c1, c2, first, i + 1, n, act, rb);
    }
  }

  // ---------------------------------------------------------------------
  // Sequential run over the items

  /** A sequential run from item i on only emits events of items i .. n - 1. */
  lemma {:induction false} SequentialFromEvents(cfgs: seq<StepConfig>, first: seq<nat>, i: nat, n: nat, act: Oracle, rb: Oracle)
    ensures forall e :: e in SequentialFrom(cfgs, first, i, n, act, rb) ==> i <= e.item < n
    decreases n - i
  {
    if i < n {
      ItemTraceEvents(cfgs, first, i, act, rb);
      SequentialFromEvents(cfgs, first, i + 1, n, act, rb);
    }
  }

  /** Items are processed in input order: the item positions along the trace never decrease. */
  lemma {:induction false} SequentialInInputOrder(cfgs: seq<StepConfig>, first: seq<nat>, i: nat, n: nat, act: Oracle, rb: Oracle)
    ensures var t := SequentialFrom(cfgs, first, i, n, act, rb);
            forall a, b :: 0 <= a < b < |t| ==> t[a].item <= t[b].item
    decreases n - i
  {
    if i < n {
      var head := ItemTrace(cfgs, first, i, act, rb);
      var rest := if Aborts(cfgs, i, act) then [] else SequentialFrom(cfgs, first, i + 1, n, act, rb);
      var t := head + rest;
      SequentialInInputOrder(cfgs, first, i + 1, n, act, rb);
      ItemTraceEvents(cfgs, first, i, act, rb);
      SequentialFromEvents(cfgs, first, i + 1, n, act, rb);
      forall a, b | 0 <= a < b < |t| ensures t[a].item <= t[b].item {
        if b < |head| {
          assert t[a] == head[a] && t[b] == head[b];
          assert head[a] in head && head[b] in head;
        } else if a < |head| {
          assert t[a] == head[a] && head[a] in head;
          assert t[b] == rest[b - |head|] && rest[b - |head|] in rest;
        } else {
          assert rest == SequentialFrom(cfgs, first, i + 1, n, act, rb);
          assert t[a] == rest[a - |head|] && t[b] == rest[b - |head|];
          assert rest[a - |head|].item <= rest[b - |head|].item;
        }
      }
    }
  }

  /** No event of the trace is about an item after position j. */
  predicate NoItemAfter(t: seq<Event>, j: nat)
  {
    forall e :: e in t ==> e.item <= j
  }

  /** After an item fails fatally, nothing else runs: no event of a later item. */
  lemma {:induction false} SequentialStopsAtAbort(cfgs: seq<StepConfig>, first: seq<nat>, i: nat, n: nat, j: nat,
                                                  act: Oracle, rb: Oracle)
    requires i <= j < n && Aborts(cfgs, j, act)
    ensures NoItemAfter(SequentialFrom(cfgs, first, i, n, act, rb), j)
    decreases j - i
  {
    if !Aborts(cfgs, i, act) {
      SequentialStopsAtAbort(cfgs, first, i + 1, n, j, act, rb);
    }
    SequentialStopsAtAbortStep(cfgs, first, i, n, j, act, rb);
  }

  lemma SequentialStopsAtAbortStep(cfgs: seq<StepConfig>, first: seq<nat>, i: nat, n: nat, j: nat, act: Oracle, rb: Oracle)
    requires i <= j < n
    requires !Aborts(cfgs, i, act) ==> NoItemAfter(SequentialFrom(cfgs, first, i + 1, n, act, rb), j)
    ensures NoItemAfter(SequentialFrom(cfgs, first, i, n, act, rb), j)
  {
    var head := ItemTrace(cfgs, first, i, act, rb);
    var rest := if Aborts(cfgs, i, act) then [] else SequentialFrom(cfgs, first, i + 1, n, act, rb);
    ItemTraceEvents(cfgs, first, i, act, rb);
    SequentialFromUnfold(cfgs, first, i, n, act, rb);
    assert SequentialFrom(cfgs, first, i, n, act, rb) == head + rest;
  }

  /** The sequential run is every item's own sequence, in input order, up to and
      including the first item that aborts (all n items when none does). */
  lemma {:induction false} SequentialRunsUpToFirstAbort(cfgs: seq<StepConfig>, first: seq<nat>, i: nat, m: nat, n: nat,
                                                        act: Oracle, rb: Oracle)
    requires i <= m <= n
    requires forall j :: i <= j < m ==> !Aborts(cfgs, j, act)
    requires m == n || Aborts(cfgs, m, act)
    ensures SequentialFrom(cfgs, first, i, n, act, rb) == AllItemsFrom(cfgs, first, i, if m == n then n else m + 1, act, rb)
    decreases m - i
  {
    if i < m {
      SequentialRunsUpToFirstAbort(cfgs, first, i + 1, m, n, act, rb);
      assert !Aborts(cfgs, i, act);
      RunContinuesPastItem(cfgs, first, i, if m == n then n else m + 1, n, act, rb);
    } else if m < n {
      RunEndsAtItem(cfgs, first, m, n, act, rb);
    }
  }

  lemma RunContinuesPastItem(cfgs: seq<StepConfig>, first: seq<nat>, i: nat, end: nat, n: nat,
                             act: Oracle, rb: Oracle)
    requires i < end && i < n && !Aborts(cfgs, i, act)
    requires SequentialFrom(cfgs, first, i + 1, n, act, rb) == AllItemsFrom(cfgs, first, i + 1, end, act, rb)
    ensures SequentialFrom(cfgs, first, i, n, act, rb) == AllItemsFrom(cfgs, first, i, end, act, rb)
  {
    SequentialFromUnfold(cfgs, first, i, n, act, rb);
  }

  lemma RunEndsAtItem(cfgs: seq<StepConfig>, first: seq<nat>, m: nat, n: nat, act: Oracle, rb: Oracle)
    requires m < n && Aborts(cfgs, m, act)
    ensures SequentialFrom(cfgs, first, m, n, act, rb) == AllItemsFrom(cfgs, first, m, m + 1, act, rb)
  {
    SequentialFromUnfold(cfgs, first, m, n, act, rb);
    assert AllItemsFrom(cfgs, first, m + 1, m + 1, act, rb) == [];
  }

  /** The difference between the two modes: once item j aborts, the sequential run
      never starts item j + 1, while the per-item body of the concurrent run still
      executes that item's first step. */
  lemma SequentialSkipsWhatConcurrentRuns(cfgs: seq<StepConfig>, first: seq<nat>, n: nat, j: nat, act: Oracle, rb: Oracle)
    requires j + 1 < n && Aborts(cfgs, j, act) && |cfgs| > 0
    ensures Event(Exec, j + 1, 0) !in SequentialTrace(cfgs, first, n, act, rb)
    ensures Event(Exec, j + 1, 0) in ItemTrace(cfgs, first, j + 1, act, rb)
  {
    SequentialStopsAtAbort(cfgs, first, 0, n, j, act, rb);
    assert NoItemAfter(SequentialTrace(cfgs, first, n, act, rb), j);
    var t := ItemTrace(cfgs, first, j + 1, act, rb);
    ItemExecutesInOrder(cfgs, first, j + 1, act, rb);
    assert StepsOf(t, Exec)[0] == 0;
    StepsOfMember(t, Exec, 0);
    ItemTraceEvents(cfgs, first, j + 1, act, rb);
    var e :| e in t && e.kind == Exec && e.step == 0;
    assert e == Event(Exec, j + 1, 0);
  }
}
