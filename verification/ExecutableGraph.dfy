/**
 The executor itself: the loops over operations, inputs and outputs that update the data,
 the degrees and the gradient accumulators in place.
 */
module ExecutableGraphs {
  import opened Collections
  import opened Executor
  import opened GradientAccumulation
  import opened CrucialRuns
  import opened LateTransfers
  import opened PipelineSchedule
  import opened StageValues

  class ExecutableGraph<V(!new)> {
    const plan: Plan<V>
    const kernels: Kernels<V>
    var micros: seq<Micro<V>>
    var gradAccumulation: map<nat, V>

    function State(): Run<V>
      reads this
    {
      Run(micros, gradAccumulation)
    }

    constructor (plan: Plan<V>, kernels: Kernels<V>)
      ensures this.plan == plan && this.kernels == kernels && micros == [] && gradAccumulation == map[]
    {
      this.plan, this.kernels := plan, kernels;
      micros, gradAccumulation := [], map[];
    }

    /** The input loop: fetch each value, count its degree down, release it when nobody is left. */
    method ReadInputs(mb: nat, op: Op) returns (ok: bool, vals: seq<V>)
      requires mb < |micros|
      modifies this`micros
      ensures ok <==> TakeAll(plan, mb, old(micros[mb]), op.ins).Some?
      ensures ok ==> vals == TakeAll(plan, mb, old(micros[mb]), op.ins).value.0
                     && micros == old(micros)[mb := TakeAll(plan, mb, old(micros[mb]), op.ins).value.1]
      ensures |micros| == |old(micros)|
    {
      hide TakeAll, Take;
      ghost var st := micros[mb];
      vals := [];
      NoInput(plan, mb, st, op.ins);
      for i := 0 to |op.ins|
        invariant mb < |micros| && micros == old(micros)[mb := micros[mb]]
        invariant TakeAll(plan, mb, st, op.ins[..i]) == Some((vals, micros[mb]))
      {
        NextInput(plan, mb, st, op.ins, i);
        var found := ReadInput(mb, op.ins[i]);
        if found.None? {
          TakeAllStops(plan, mb, st, op.ins, i + 1);
          return false, vals;
        }
        vals := vals + [found.value];
      }
      assert op.ins[..|op.ins|] == op.ins;
      return true, vals;
    }

    /** One input: a preserved value, or the micro-batch's own, counted and erased after its last use. */
    method ReadInput(mb: nat, t: nat) returns (found: Option<V>)
      requires mb < |micros|
      modifies this`micros
      ensures found.Some? <==> Take(plan, mb, old(micros[mb]), t).Some?
      ensures found.None? ==> micros == old(micros)
      ensures found.Some? ==> found.value == Take(plan, mb, old(micros[mb]), t).value.0
                              && micros == old(micros)[mb := Take(plan, mb, old(micros[mb]), t).value.1]
    {
      var now := micros[mb];
      if t in plan.preserved {
        return Some(plan.preserved[t]);
      }
      if t !in now.data {
        return None;
      }
      var value := now.data[t];
      var degree := Degree(now.degrees, t) - 1;
      now := now.(degrees := now.degrees[t := degree]);
      if degree == 0 && t !in plan.fetched && ((mb == 0 && t !in plan.transfers) || mb > 0) {
        now := now.(data := now.data - {t});
      }
      micros := micros[mb := now];
      return Some(value);
    }

    /** One output: accumulate, copy for the caller, or keep while somebody reads it. */
    method StoreOutput(mb: nat, t: nat, v: V, finished: bool)
      requires mb < |micros|
      modifies this
      ensures var (st, acc) := Put(plan, kernels, old(micros[mb]), old(gradAccumulation), t, v, finished);
              micros == old(micros)[mb := st] && gradAccumulation == acc
    {
      ghost var was := gradAccumulation;
      var now := micros[mb];
      if t in plan.accumulated {
        if t !in gradAccumulation {
          gradAccumulation := gradAccumulation[t := kernels.zerosLike(v)];
        }
        gradAccumulation := gradAccumulation[t := kernels.add(gradAccumulation[t], v)];
        assert gradAccumulation == was[t := Plus(kernels, was, t, v)];
        if finished {
          now := now.Set(t, gradAccumulation[t]);
        }
      } else if t in plan.fetched {
        now := now.Set(t, kernels.add(kernels.zerosLike(v), v));
      } else if Degree(now.degrees, t) > 0 {
        now := now.Set(t, v);
      }
      micros := micros[mb := now];
    }

    method StoreOutputs(mb: nat, op: Op, vals: seq<V>, finished: bool)
      requires mb < |micros| && |vals| == |op.outs|
      modifies this
      ensures |micros| == |old(micros)| && micros == old(micros)[mb := micros[mb]]
      ensures PutAll(plan, kernels, old(micros[mb]), old(gradAccumulation), op.outs, vals, finished)
           == (micros[mb], gradAccumulation)
    {
      hide Put;
      ghost var st := micros[mb];
      for i := 0 to |op.outs|
        invariant mb < |micros| && micros == old(micros)[mb := micros[mb]]
        invariant PutAll(plan, kernels, st, old(gradAccumulation), op.outs[..i], vals[..i], finished)
               == (micros[mb], gradAccumulation)
      {
        assert op.outs[..i + 1][..i] == op.outs[..i] && vals[..i + 1][..i] == vals[..i];
        StoreOutput(mb, op.outs[i], vals[i], finished);
      }
      assert op.outs[..|op.outs|] == op.outs && vals[..|vals|] == vals;
    }

    /** One pass of one micro-batch. `ok` is false when an input is missing and the run is aborted. */
    method ComputeFunc(mb: nat, topo: seq<Op>, finished: bool) returns (ok: bool)
      requires Lawful(kernels) && mb < |micros|
      modifies this
      ensures ok <==> RunTopo(plan, kernels, mb, topo, finished, old(micros[mb]), old(gradAccumulation)).Some?
      ensures ok ==>
                var (st, acc) :=
                  RunTopo(plan, kernels, mb, topo, finished, old(micros[mb]), old(gradAccumulation)).value;
                micros == old(micros)[mb := st] && gradAccumulation == acc
      ensures |micros| == |old(micros)|
    {
      hide RunOp, RunTopo;
      ghost var st, acc := micros[mb], gradAccumulation;
      NoOp(plan, kernels, mb, topo, finished, st, acc);
      for i := 0 to |topo|
        invariant mb < |micros| && micros == old(micros)[mb := micros[mb]]
        invariant RunTopo(plan, kernels, mb, topo[..i], finished, st, acc) == Some((micros[mb], gradAccumulation))
      {
        NextOp(plan, kernels, mb, topo, finished, st, acc, i);
        ok := ComputeOp(mb, topo[i], finished);
        if !ok {
          RunTopoStops(plan, kernels, mb, topo, finished, st, acc, i + 1);
          return;
        }
      }
      assert topo[..|topo|] == topo;
      return true;
    }

    /** One operation: skipped, or its inputs read, its kernel run and its outputs stored. */
    method ComputeOp(mb: nat, op: Op, finished: bool) returns (ok: bool)
      requires Lawful(kernels) && mb < |micros|
      modifies this
      ensures ok <==> RunOp(plan, kernels, mb, op, finished, old(micros[mb]), old(gradAccumulation)).Some?
      ensures |micros| == |old(micros)|
      ensures ok ==> micros == old(micros)[mb := micros[mb]]
      ensures ok ==>
                RunOp(plan, kernels, mb, op, finished, old(micros[mb]), old(gradAccumulation)) ==
                Some((micros[mb], gradAccumulation))
    {
      hide TakeAll, PutAll;
      if op.id in plan.skipped {
        return true;
      }
      if IsFedOp(plan, op) {
        return true;
      }
      if |op.outs| > 0 && op.outs[0] in plan.transfers && mb > 0 {
        return true;
      }
      if op.id in plan.deferred {
        return true;
      }
      var vals;
      ok, vals := ReadInputs(mb, op);
      if !ok {
        return;
      }
      StoreOutputs(mb, op, kernels.compute(op, mb, vals), finished);
    }

    /** Hands micro-batch 0's transferred tensors on, stopping at the first one already there. */
    method ReuseTransfers(mb: nat)
      requires 0 < mb < |micros|
      modifies this`micros
      ensures micros == Reused(plan, old(State()), mb).micros
    {
      ghost var zero0, now0 := micros[0], micros[mb];
      var i := 0;
      while i < |plan.transfers| && !micros[mb].Has(plan.transfers[i])
        invariant i <= |plan.transfers| && |micros| == |old(micros)|
        invariant micros == old(micros)[0 := micros[0]][mb := micros[mb]]
        invariant Reuse(plan.transfers, zero0, now0) == Reuse(plan.transfers[i..], micros[0], micros[mb])
      {
        var t := plan.transfers[i];
        var zero, now := micros[0], micros[mb];
        if t !in zero.data {
          zero := zero.(undefined := zero.undefined + {t});
          now := now.(undefined := now.undefined + {t});
        } else {
          now := now.Set(t, zero.data[t]);
        }
        assert plan.transfers[i..][1..] == plan.transfers[i + 1..];
        micros := micros[0 := zero][mb := now];
        i := i + 1;
      }
    }

    /** One pass of one micro-batch, transfers first. */
    method RunPassOf(mb: nat, topo: seq<Op>, finished: bool) returns (ok: bool)
      requires Lawful(kernels) && mb < |micros|
      modifies this
      ensures ok <==> RunPass(plan, kernels, old(State()), mb, topo, finished).Some?
      ensures ok ==> State() == RunPass(plan, kernels, old(State()), mb, topo, finished).value
      ensures |micros| == |old(micros)|
    {
      if mb > 0 {
        ReuseTransfers(mb);
      }
      assert State() == Reused(plan, old(State()), mb);
      ok := ComputeFunc(mb, topo, finished);
    }

    method RunOneTask(task: Task, last: bool) returns (ok: bool)
      requires Lawful(kernels) && (!task.Bubble? ==> task.batch < |micros|)
      modifies this
      ensures ok <==> RunTask(plan, kernels, old(State()), task, last).Some?
      ensures ok ==> State() == RunTask(plan, kernels, old(State()), task, last).value
      ensures |micros| == |old(micros)|
    {
      match task {
        case Bubble(_) => ok := true;
        case Forward(mb) => ok := RunPassOf(mb, plan.fw, false);
        case Backward(mb) => ok := RunPassOf(mb, plan.bw, last);
      }
    }

    /** The degree every tensor starts with: how often the local operations read it. */
    method CountDegrees() returns (degrees: map<nat, int>)
      ensures StartsWith(plan, degrees)
    {
      degrees := map[];
      var topo := plan.fw + plan.bw;
      for i := 0 to |topo|
        invariant forall t: nat :: Degree(degrees, t) == Uses(topo[..i], t)
      {
        assert topo[..i + 1][..i] == topo[..i];
        var ins := topo[i].ins;
        for j := 0 to |ins|
          invariant forall t: nat :: Degree(degrees, t) == Uses(topo[..i], t) + Occurs(ins[..j], t)
        {
          assert ins[..j + 1][..j] == ins[..j];
          degrees := degrees[ins[j] := Degree(degrees, ins[j]) + 1];
        }
        assert ins[..|ins|] == ins;
      }
      assert topo[..|topo|] == topo;
    }

    method ScheduledTasks(stages: nat, m: nat, stageId: nat) returns (tasks: seq<Task>)
      requires stageId < stages
      ensures tasks == StageTasks(plan, stages, m, stageId) && BatchesBelow(tasks, m)
    {
      var isInference := |plan.bw| == 0;
      var schedule := GeneratePipedreamFlushSchedule(stages, m, isInference);
      tasks := schedule[stageId];
      StageBelow(plan, stages, m, stageId);
    }

    /** The task loop over the list of one stage. */
    method RunSchedule(feeds: seq<map<nat, V>>, degrees: map<nat, int>, stages: nat, stageId: nat) returns (ok: bool)
      requires Lawful(kernels) && stageId < stages && State() == StartRun(feeds, degrees)
      modifies this
      ensures BatchesBelow(StageTasks(plan, stages, |feeds|, stageId), |feeds|)
      ensures var tasks := StageTasks(plan, stages, |feeds|, stageId);
              var run := RunTasks(plan, kernels, StartRun(feeds, degrees), tasks, |tasks|);
              (ok <==> run.Some?) && (ok ==> State() == run.value)
    {
      hide *;
      var m := |feeds|;
      var tasks := ScheduledTasks(stages, m, stageId);
      ghost var start := StartRun(feeds, degrees);
      StartMicros(feeds, degrees);
      NextNone(plan, kernels, start, tasks);
      for i := 0 to |tasks|
        invariant |micros| == m
        invariant RunTasks(plan, kernels, start, tasks, i) == Some(State())
      {
        NextTask(plan, kernels, start, tasks, i);
        ok := RunOneTask(tasks[i], i == |tasks| - 1);
        if !ok {
          RunTasksStops(plan, kernels, start, tasks, i + 1);
          return false;
        }
      }
      return true;
    }

    lemma StartMicros(feeds: seq<map<nat, V>>, degrees: map<nat, int>)
      requires State() == StartRun(feeds, degrees)
      ensures |StartRun(feeds, degrees).micros| == |feeds| == |micros|
    {
    }

    /**
     The run of one stage: nothing when only the topology or the allocation is wanted or the device is in
     no pipeline. With a sound plan it never misses an input, and the data it hands to the update,
     that of the last micro-batch, holds every accumulated tensor's sum over all micro-batches.
     */
    method CrucialRun(
      feedDict: map<nat, seq<V>>, m: nat, split: (V, nat) -> Option<seq<V>>, level: RunLevel,
      place: Option<(nat, nat)>)
      returns (outcome: Outcome, feeds: seq<map<nat, V>>)
      requires Lawful(kernels) && m >= 1 && (place.Some? ==> place.value.1 < place.value.0)
      requires forall v: V, n: nat :: split(v, n).Some? ==> |split(v, n).value| == n
      modifies this
      ensures level == Topo ==> outcome == Nothing && State() == old(State())
      ensures level != Topo && !(forall t <- feedDict :: Splittable(feedDict[t], m, split)) ==> outcome == Failed
      ensures level != Topo && (forall t <- feedDict :: Splittable(feedDict[t], m, split)) ==>
                && PiecesOf(feedDict, m, split, feedDict.Keys, feeds)
                && (place.None? || level == Alloc ==> outcome == Nothing && State() == old(State()))
                && (place.Some? && level != Alloc ==>
                      outcome != Nothing && RunsAsPromised(feeds, place.value.0, place.value.1, outcome))
    {
      feeds := [];
      if level == Topo {
        return Nothing, feeds;
      }
      var ok;
      ok, feeds := SplitFeeds(feedDict, m, split);
      if !ok {
        return Failed, feeds;
      }
      var degrees := CountDegrees();
      if place.None? {
        return Nothing, feeds;
      }
      var (stages, stageId) := place.value;
      if level == Alloc {
        return Nothing, feeds;
      }
      micros := seq(m, i requires 0 <= i < m => Initial(feeds[i], degrees));
      gradAccumulation := map[];
      assert micros == StartRun(feeds, degrees).micros;
      ok := RunSchedule(feeds, degrees, stages, stageId);
      outcome := if ok then Done else Failed;
      StagePromise(feeds, degrees, stages, stageId);
    }

    ghost predicate FinishedAs(feeds: seq<map<nat, V>>, late: bool)
      requires |feeds| >= 1
      reads this
    {
      && Evaluates(plan, kernels, feeds, late) && Finished(plan, kernels, feeds, late, State())
      && exists envs :: Solution(plan, kernels, feeds, late, envs) && HoldsSolution(plan, kernels, envs, State())
    }

    lemma FinishedIs(feeds: seq<map<nat, V>>, late: bool)
      requires |feeds| >= 1 && Evaluates(plan, kernels, feeds, late)
      requires Finished(plan, kernels, feeds, late, State())
      ensures FinishedAs(feeds, late)
    {
      hide Evaluates, Finished, Solution, HoldsSolution;
      var envs := FinishedHoldsSolution(plan, kernels, feeds, late, State());
    }

    /** The exact outcome for sound plans, also for those that hand tensors over late. */
    ghost predicate RunsAsPromised(feeds: seq<map<nat, V>>, stages: nat, stageId: nat, outcome: Outcome)
      requires Lawful(kernels) && |feeds| >= 1
      reads this
    {
      && (Sound(plan, feeds, false) ==> outcome == Done && FinishedAs(feeds, false))
      && (Sound(plan, feeds, true) && FirstOutputs(plan) ==>
            && (outcome == Done <==> GetsThrough(plan, |feeds|, stages, stageId))
            && (outcome == Done ==> FinishedAs(feeds, HandsOverLate(plan, stages, stageId))))
    }

    lemma StagePromise(feeds: seq<map<nat, V>>, degrees: map<nat, int>, stages: nat, stageId: nat)
      requires Lawful(kernels) && |feeds| >= 1 && stageId < stages && StartsWith(plan, degrees)
      requires BatchesBelow(StageTasks(plan, stages, |feeds|, stageId), |feeds|)
      ensures var tasks := StageTasks(plan, stages, |feeds|, stageId);
              var run := RunTasks(plan, kernels, StartRun(feeds, degrees), tasks, |tasks|);
              (run.Some? ==> State() == run.value) ==>
                RunsAsPromised(feeds, stages, stageId, if run.Some? then Done else Failed)
    {
      hide StartsWith, Finished, StageTasks, RunTasks, Lawful, StartRun, Sound, FirstOutputs, GetsThrough;
      hide Evaluates, HandsOverLate, FinishedAs;
      StartLength(feeds, degrees);
      var tasks := StageTasks(plan, stages, |feeds|, stageId);
      var run := RunTasks(plan, kernels, StartRun(feeds, degrees), tasks, |tasks|);
      if Sound(plan, feeds, true) && FirstOutputs(plan) {
        StageRunsIff(plan, kernels, feeds, degrees, stages, stageId);
        if run.Some? && State() == run.value {
          FinishedIs(feeds, HandsOverLate(plan, stages, stageId));
        }
      }
      if Sound(plan, feeds, false) {
        assert InTime(false, tasks);
        StageComputesGradients(plan, kernels, feeds, false, degrees, stages, stageId);
        if run.Some? && State() == run.value {
          FinishedIs(feeds, false);
        }
      }
    }
  }

  /** How far a run goes; the last three differ only in what follows the task loop. */
  datatype RunLevel = Update | Grad | ComputeOnly | Alloc | Topo

  datatype Outcome = Nothing | Failed | Done

  // ---------- the feed of every micro-batch ----------

  /** No array, one that can be split, or one for each micro-batch. */
  predicate Splittable<V>(arrays: seq<V>, m: nat, split: (V, nat) -> Option<seq<V>>) {
    |arrays| == 0 || (|arrays| == 1 && split(arrays[0], m).Some?) || (|arrays| > 1 && |arrays| == m)
  }

  function Piece<V>(arrays: seq<V>, m: nat, split: (V, nat) -> Option<seq<V>>, i: nat): V
    requires Splittable(arrays, m, split) && |arrays| > 0 && i < m
    requires |arrays| == 1 ==> |split(arrays[0], m).value| == m
  {
    if |arrays| == 1 then split(arrays[0], m).value[i] else arrays[i]
  }

  /** Every micro-batch is fed its own piece of those of the tensors in `keys` that have arrays. */
  ghost predicate PiecesOf<V(!new)>(
    feedDict: map<nat, seq<V>>, m: nat, split: (V, nat) -> Option<seq<V>>, keys: set<nat>,
    feeds: seq<map<nat, V>>)
    requires forall v: V, n: nat :: split(v, n).Some? ==> |split(v, n).value| == n
  {
    && |feeds| == m && (forall t <- keys :: t in feedDict && Splittable(feedDict[t], m, split))
    && (forall i | 0 <= i < m :: forall t :: t in feeds[i] <==> t in keys && |feedDict[t]| > 0)
    && (forall i | 0 <= i < m :: forall t <- feeds[i] :: |feedDict[t]| == 1 ==>
          split(feedDict[t][0], m).Some? && feeds[i][t] == split(feedDict[t][0], m).value[i])
    && (forall i | 0 <= i < m :: forall t <- feeds[i] :: |feedDict[t]| > 1 ==>
          |feedDict[t]| == m && feeds[i][t] == feedDict[t][i])
  }

  method SplitFeeds<V(!new)>(feedDict: map<nat, seq<V>>, m: nat, split: (V, nat) -> Option<seq<V>>)
    returns (ok: bool, feeds: seq<map<nat, V>>)
    requires forall v: V, n: nat :: split(v, n).Some? ==> |split(v, n).value| == n
    ensures ok <==> forall t <- feedDict :: Splittable(feedDict[t], m, split)
    ensures ok <==> forall t <- feedDict ::
              if |feedDict[t]| == 1 then split(feedDict[t][0], m).Some? else |feedDict[t]| == 0 || |feedDict[t]| == m
    ensures ok ==> PiecesOf(feedDict, m, split, feedDict.Keys, feeds)
  {
    feeds := seq(m, i => map[]);
    var todo := feedDict.Keys;
    while todo != {}
      invariant todo <= feedDict.Keys && PiecesOf(feedDict, m, split, feedDict.Keys - todo, feeds)
    {
      var t :| t in todo;
      if !Splittable(feedDict[t], m, split) {
        return false, feeds;
      }
      if |feedDict[t]| > 0 {
        feeds := seq(m, i requires 0 <= i < m => feeds[i][t := Piece(feedDict[t], m, split, i)]);
      }
      todo := todo - {t};
    }
    assert feedDict.Keys - todo == feedDict.Keys;
    return true, feeds;
  }

  lemma {:induction false} TakeAllStops<V>(p: Plan<V>, mb: nat, st: Micro<V>, ts: seq<nat>, n: nat)
    requires n <= |ts| && TakeAll(p, mb, st, ts[..n]).None?
    ensures TakeAll(p, mb, st, ts).None?
    decreases |ts|
  {
    if n < |ts| {
      assert ts[..|ts| - 1][..n] == ts[..n];
      TakeAllStops(p, mb, st, ts[..|ts| - 1], n);
    } else {
      assert ts[..n] == ts;
    }
  }

  lemma NextInput<V>(p: Plan<V>, mb: nat, st: Micro<V>, ts: seq<nat>, i: nat)
    requires i < |ts|
    ensures var most := TakeAll(p, mb, st, ts[..i]);
            TakeAll(p, mb, st, ts[..i + 1])
            == if most.None? then None else
                 var last := Take(p, mb, most.value.1, ts[i]);
                 if last.None? then None else Some((most.value.0 + [last.value.0], last.value.1))
  {
    assert ts[..i + 1][..i] == ts[..i];
  }

  lemma NoInput<V>(p: Plan<V>, mb: nat, st: Micro<V>, ts: seq<nat>)
    ensures TakeAll(p, mb, st, ts[..0]) == Some(([], st))
  {
  }

  lemma NoOp<V(!new)>(p: Plan<V>, k: Kernels<V>, mb: nat, ops: seq<Op>, finished: bool, st: Micro<V>, acc: map<nat, V>)
    requires Lawful(k)
    ensures RunTopo(p, k, mb, ops[..0], finished, st, acc) == Some((st, acc))
  {
  }

  lemma NextOp<V(!new)>(
    p: Plan<V>, k: Kernels<V>, mb: nat, ops: seq<Op>, finished: bool, st: Micro<V>, acc: map<nat, V>, i: nat)
    requires Lawful(k) && i < |ops|
    ensures var most := RunTopo(p, k, mb, ops[..i], finished, st, acc);
            RunTopo(p, k, mb, ops[..i + 1], finished, st, acc)
            == if most.None? then None else RunOp(p, k, mb, ops[i], finished, most.value.0, most.value.1)
  {
    assert ops[..i + 1][..i] == ops[..i];
  }

  lemma {:induction false} RunTopoStops<V(!new)>(
    p: Plan<V>, k: Kernels<V>, mb: nat, ops: seq<Op>, finished: bool, st: Micro<V>, acc: map<nat, V>, n: nat)
    requires Lawful(k) && n <= |ops| && RunTopo(p, k, mb, ops[..n], finished, st, acc).None?
    ensures RunTopo(p, k, mb, ops, finished, st, acc).None?
    decreases |ops|
  {
    if n < |ops| {
      assert ops[..|ops| - 1][..n] == ops[..n];
      RunTopoStops(p, k, mb, ops[..|ops| - 1], finished, st, acc, n);
    } else {
      assert ops[..n] == ops;
    }
  }

  lemma {:induction false} RunTasksStops<V(!new)>(p: Plan<V>, k: Kernels<V>, start: Run<V>, tasks: seq<Task>, n: nat)
    requires Lawful(k) && n <= |tasks| && BatchesBelow(tasks, |start.micros|)
    requires RunTasks(p, k, start, tasks, n).None?
    ensures RunTasks(p, k, start, tasks, |tasks|).None?
    decreases |tasks| - n
  {
    if n < |tasks| {
      RunTasksStops(p, k, start, tasks, n + 1);
    }
  }
}
