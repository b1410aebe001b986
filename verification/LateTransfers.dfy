/**
 Transferred tensors that only the backward pass makes: when a stage gets through all the same.
 */
module LateTransfers {
  import opened Collections
  import opened Executor
  import opened GradientAccumulation
  import opened PipelineSchedule
  import opened CrucialRuns
  import opened ReadyInputs

  // ---------- who reads what is handed over late ----------

  /** A transferred tensor is the first output of the operation that makes it. */
  predicate TransfersFirst<V>(p: Plan<V>, op: Op) {
    forall t <- op.outs :: t in p.transfers ==> t == op.outs[0]
  }

  ghost predicate FirstOutputs<V>(p: Plan<V>) {
    (forall op <- p.fw :: TransfersFirst(p, op)) && forall op <- p.bw :: TransfersFirst(p, op)
  }

  predicate IsLate<V>(p: Plan<V>, t: nat) {
    t in p.transfers && t in Outs(p.bw)
  }

  /** The operation runs in the micro-batches above 0 and reads a transferred tensor made in the backward pass. */
  ghost predicate ReadsLateTensor<V>(p: Plan<V>, op: Op) {
    !Passed(p, 1, op) && exists t :: t in op.ins && t !in p.preserved && IsLate(p, t)
  }

  ghost predicate ReadsLate<V>(p: Plan<V>) {
    (exists op :: op in p.fw && ReadsLateTensor(p, op)) || exists op :: op in p.bw && ReadsLateTensor(p, op)
  }

  // ---------- without a reader, late tensors do not matter ----------

  /** A late tensor may be absent where nobody reads it. */
  lemma ReadyOffLate<V>(p: Plan<V>, mb: nat, ops: seq<Op>, known: set<nat>, fewer: set<nat>)
    requires mb > 0 && (forall t | t in known :: t in fewer || IsLate(p, t))
    requires Ready(p, mb, ops, known) && forall op <- ops :: !ReadsLateTensor(p, op)
    ensures Ready(p, mb, ops, fewer)
  {
    hide MadeBefore, IsLate;
    forall j | 0 <= j < |ops| && !Passed(p, mb, ops[j]) ensures InputsAt(p, mb, ops, fewer, j) {
      assert InputsAt(p, mb, ops, known, j) && ops[j] in ops && !Passed(p, 1, ops[j]);
      hide Passed;
    }
  }

  lemma MadeOffLate<V>(p: Plan<V>, mb: nat, ops: seq<Op>, known: set<nat>, fewer: set<nat>, t: nat)
    requires forall u | u in known :: u in fewer || IsLate(p, u)
    ensures t in Made(p, mb, ops, known) ==> t in Made(p, mb, ops, fewer) || IsLate(p, t)
  {
    hide MadeBefore, IsLate;
    MadeIff(p, mb, ops, known, t);
    MadeIff(p, mb, ops, fewer, t);
  }

  /** What the backward pass adds to the hand-over is late. */
  lemma StartsOffLate<V>(p: Plan<V>, feeds: seq<map<nat, V>>, i: nat, t: nat)
    requires i < |feeds|
    ensures t in StartKeys(p, feeds, true, i) ==> t in StartKeys(p, feeds, false, i) || IsLate(p, t)
  {
    hide MadeBefore, Made, Outs;
    if i > 0 {
      var forward := Made(p, 0, p.fw, feeds[0].Keys);
      MadeIff(p, 0, p.bw, forward, t);
      if MadeBefore(p, 0, p.bw, |p.bw|, t) { MadeIsOut(p, 0, p.bw, t); }
    }
  }

  lemma MadeIsOut<V>(p: Plan<V>, mb: nat, ops: seq<Op>, t: nat)
    requires MadeBefore(p, mb, ops, |ops|, t)
    ensures t in Outs(ops)
  {
    var i :| 0 <= i < |ops| && !Passed(p, mb, ops[i]) && t in ops[i].outs;
    InOuts(ops, ops[i], t);
  }

  /** With nobody reading late tensors, handing over after the forward is enough. */
  lemma EarlyIsEnough<V>(p: Plan<V>, feeds: seq<map<nat, V>>)
    requires Sound(p, feeds, true) && (!ReadsLate(p) || |feeds| <= 1)
    ensures Sound(p, feeds, false)
  {
    hide ReadsLateTensor, IsLate, Ready, Made, Tidy;
    forall i | 0 <= i < |feeds| ensures Connected(p, feeds, false, i) {
      assert Connected(p, feeds, true, i);
      if i > 0 {
        var known, fewer := StartKeys(p, feeds, true, i), StartKeys(p, feeds, false, i);
        forall t | t in known ensures t in fewer || IsLate(p, t) { StartsOffLate(p, feeds, i, t); }
        ReadyOffLate(p, i, p.fw, known, fewer);
        var known', fewer' := Made(p, i, p.fw, known), Made(p, i, p.fw, fewer);
        forall t | t in known' ensures t in fewer' || IsLate(p, t) { MadeOffLate(p, i, p.fw, known, fewer, t); }
        ReadyOffLate(p, i, p.bw, known', fewer');
      }
    }
  }

  // ---------- what is missing stays missing ----------

  /** The tensor has an entry that holds no array. */
  predicate Missing<V>(st: Micro<V>, t: nat) {
    t in st.undefined && t !in st.data
  }

  lemma {:induction false} ReuseKeepsMissing<V>(order: seq<nat>, zero: Micro<V>, now: Micro<V>, t: nat)
    requires Missing(now, t)
    ensures Missing(Reuse(order, zero, now).1, t)
    decreases |order|
  {
    if order != [] && !now.Has(order[0]) {
      var (zero', now') := ReuseOne(order[0], zero, now);
      ReuseKeepsMissing(order[1..], zero', now', t);
    }
  }

  /** A hand-over that reaches a tensor micro-batch 0 does not have leaves an undefined entry. */
  lemma {:induction false} ReuseMarks<V>(order: seq<nat>, zero: Micro<V>, now: Micro<V>, t: nat)
    requires NoDup(order) && (forall u <- order :: !now.Has(u)) && t in order && t !in zero.data
    ensures Missing(Reuse(order, zero, now).1, t)
    decreases |order|
  {
    var (zero', now') := ReuseOne(order[0], zero, now);
    assert order[0] in order && order == [order[0]] + order[1..];
    if order[0] == t {
      ReuseKeepsMissing(order[1..], zero', now', t);
    } else {
      forall u | u in order[1..] ensures !now'.Has(u) {
        var i := IndexOf(order[1..], u);
        assert order[i + 1] == u && order[0] != order[i + 1];
        assert u in order;
      }
      ReuseMarks(order[1..], zero', now', t);
    }
  }

  lemma {:induction false} TakeAllShrinks<V>(p: Plan<V>, mb: nat, st: Micro<V>, ts: seq<nat>, t: nat)
    requires t !in st.data
    ensures t in ts && t !in p.preserved ==> TakeAll(p, mb, st, ts).None?
    ensures TakeAll(p, mb, st, ts).Some? ==>
              var next := TakeAll(p, mb, st, ts).value.1;
              t !in next.data && next.undefined == st.undefined
  {
    if ts != [] {
      assert ts == ts[..|ts| - 1] + [ts[|ts| - 1]];
      TakeAllShrinks(p, mb, st, ts[..|ts| - 1], t);
    }
  }

  lemma {:induction false} PutAllSpares<V>(
    p: Plan<V>, k: Kernels<V>, st: Micro<V>, acc: map<nat, V>, ts: seq<nat>, vs: seq<V>, finished: bool, t: nat)
    requires |ts| == |vs| && t !in ts && t !in st.data
    ensures var (next, _) := PutAll(p, k, st, acc, ts, vs, finished);
            t !in next.data && (t in next.undefined <==> t in st.undefined)
  {
    if ts != [] {
      assert ts == ts[..|ts| - 1] + [ts[|ts| - 1]];
      PutAllSpares(p, k, st, acc, ts[..|ts| - 1], vs[..|ts| - 1], finished, t);
    }
  }

  /** Operations that do not make `t` leave it without an array, and fail if one of them reads it. */
  lemma {:induction false} TopoSpares<V(!new)>(
    p: Plan<V>, k: Kernels<V>, mb: nat, ops: seq<Op>, finished: bool, st: Micro<V>, acc: map<nat, V>, t: nat)
    requires Lawful(k) && t !in st.data && forall op <- ops :: !Passed(p, mb, op) ==> t !in op.outs
    ensures RunTopo(p, k, mb, ops, finished, st, acc).Some? ==>
              var next := RunTopo(p, k, mb, ops, finished, st, acc).value.0;
              t !in next.data && (t in next.undefined <==> t in st.undefined)
    ensures t !in p.preserved && (exists op :: op in ops && !Passed(p, mb, op) && t in op.ins) ==>
              RunTopo(p, k, mb, ops, finished, st, acc).None?
  {
    hide TakeAll, PutAll, Passed, Runs, Lawful;
    if ops != [] {
      var n := |ops| - 1;
      var op := ops[n];
      RunsUnlessPassed(p, mb, op);
      assert op in ops && ops == ops[..n] + [op] && forall o <- ops[..n] :: o in ops;
      TopoSpares(p, k, mb, ops[..n], finished, st, acc, t);
      var most := RunTopo(p, k, mb, ops[..n], finished, st, acc);
      if most.Some? && !Passed(p, mb, op) {
        TakeAllShrinks(p, mb, most.value.0, op.ins, t);
        var taken := TakeAll(p, mb, most.value.0, op.ins);
        if taken.Some? {
          ComputesAll(k, op, mb, taken.value.0);
          PutAllSpares(p, k, taken.value.1, most.value.1, op.outs, k.compute(op, mb, taken.value.0), finished, t);
        }
      }
    }
  }

  /** In the micro-batches above 0 nothing that runs makes a transferred tensor. */
  lemma NotMadeAgain<V>(p: Plan<V>, mb: nat, op: Op, t: nat)
    requires TransfersFirst(p, op) && mb > 0 && !Passed(p, mb, op) && t in p.transfers
    ensures t !in op.outs
  {
  }

  /** A pass of micro-batch 1 that starts with `t` missing ends so, and fails if it reads `t`. */
  lemma PassMisses<V(!new)>(p: Plan<V>, k: Kernels<V>, run: Run<V>, ops: seq<Op>, finished: bool, t: nat)
    requires Lawful(k) && |run.micros| >= 2 && t in p.transfers && (forall op <- ops :: TransfersFirst(p, op))
    requires Missing(Reused(p, run, 1).micros[1], t)
    ensures RunPass(p, k, run, 1, ops, finished).Some? ==>
              Missing(RunPass(p, k, run, 1, ops, finished).value.micros[1], t)
    ensures t !in p.preserved && (exists op :: op in ops && !Passed(p, 1, op) && t in op.ins) ==>
              RunPass(p, k, run, 1, ops, finished).None?
  {
    hide Passed, TransfersFirst, Reuse, RunTopo, Lawful;
    forall op | op in ops && !Passed(p, 1, op) ensures t !in op.outs {
      NotMadeAgain(p, 1, op, t);
    }
    var ready := Reused(p, run, 1);
    TopoSpares(p, k, 1, ops, finished, ready.micros[1], ready.acc, t);
  }

  /** Once missing in micro-batch 1, a late tensor stays so through every task that succeeds. */
  lemma TaskMisses<V(!new)>(p: Plan<V>, k: Kernels<V>, run: Run<V>, task: Task, last: bool, t: nat)
    requires Lawful(k) && FirstOutputs(p) && |run.micros| >= 2 && t in p.transfers && Missing(run.micros[1], t)
    requires !task.Bubble? ==> task.batch < |run.micros|
    ensures RunTask(p, k, run, task, last).Some? ==> Missing(RunTask(p, k, run, task, last).value.micros[1], t)
    ensures (task == Backward(1) && t !in p.preserved
             && exists op :: op in p.bw && !Passed(p, 1, op) && t in op.ins) ==>
              RunTask(p, k, run, task, last).None?
  {
    hide Passed, TransfersFirst, RunTopo, Reuse, Missing, Lawful;
    if !task.Bubble? {
      if task.batch == 1 {
        ReuseKeepsMissing(p.transfers, run.micros[0], run.micros[1], t);
        assert Missing(Reused(p, run, 1).micros[1], t);
        PassMisses(p, k, run, if task.Forward? then p.fw else p.bw, task.Backward? && last, t);
      }
    }
  }

  lemma {:induction false} TasksMiss<V(!new)>(
    p: Plan<V>, k: Kernels<V>, start: Run<V>, tasks: seq<Task>, n: nat, t: nat)
    requires Lawful(k) && FirstOutputs(p) && t in p.transfers && |start.micros| >= 2
    requires 2 <= n <= |tasks| && BatchesBelow(tasks, |start.micros|) && RunTasks(p, k, start, tasks, n).Some?
    requires RunTasks(p, k, start, tasks, 2).Some? ==> Missing(RunTasks(p, k, start, tasks, 2).value.micros[1], t)
    ensures Missing(RunTasks(p, k, start, tasks, n).value.micros[1], t)
  {
    hide Missing, FirstOutputs, RunTask, Lawful;
    if n > 2 {
      TasksMiss(p, k, start, tasks, n - 1, t);
      TaskMisses(p, k, RunTasks(p, k, start, tasks, n - 1).value, tasks[n - 1], n == |tasks|, t);
    }
  }

  lemma {:induction false} SomeBefore<V(!new)>(
    p: Plan<V>, k: Kernels<V>, start: Run<V>, tasks: seq<Task>, n: nat, n': nat)
    requires Lawful(k) && n <= n' <= |tasks| && BatchesBelow(tasks, |start.micros|)
    requires RunTasks(p, k, start, tasks, n').Some?
    ensures RunTasks(p, k, start, tasks, n).Some?
  {
    if n < n' {
      SomeBefore(p, k, start, tasks, n, n' - 1);
    }
  }

  // ---------- a stage that starts with two forwards ----------

  lemma FirstForward<V(!new)>(p: Plan<V>, k: Kernels<V>, feeds: seq<map<nat, V>>, degrees: map<nat, int>, t: nat)
    requires Lawful(k) && Tidy(p, feeds) && |feeds| >= 2 && IsLate(p, t)
    ensures var next := RunPass(p, k, StartRun(feeds, degrees), 0, p.fw, false);
            next.Some? ==> t !in next.value.micros[0].data && next.value.micros[1] == Initial(feeds[1], degrees)
  {
    var start := StartRun(feeds, degrees);
    forall op | op in p.fw ensures t !in op.outs {
      if t in op.outs {
        InOuts(p.fw, op, t);
        ForwardOutsOnly(p, t);
      }
    }
    TopoSpares(p, k, 0, p.fw, false, start.micros[0], start.acc, t);
  }

  lemma SecondForward<V(!new)>(
    p: Plan<V>, k: Kernels<V>, feeds: seq<map<nat, V>>, degrees: map<nat, int>, run: Run<V>, t: nat)
    requires Lawful(k) && FirstOutputs(p) && Tidy(p, feeds) && |feeds| >= 2 && IsLate(p, t) && |run.micros| == |feeds|
    requires t !in run.micros[0].data && run.micros[1] == Initial(feeds[1], degrees)
    ensures var next := RunPass(p, k, run, 1, p.fw, false);
            && (next.Some? ==> Missing(next.value.micros[1], t))
            && (t !in p.preserved && (exists op :: op in p.fw && !Passed(p, 1, op) && t in op.ins) ==> next.None?)
  {
    hide Passed, RunPass, TransfersFirst, Lawful;
    ReuseMarks(p.transfers, run.micros[0], run.micros[1], t);
    PassMisses(p, k, run, p.fw, false, t);
  }

  /** After forwards 0 and 1 a late tensor is missing in micro-batch 1; a forward reading it fails. */
  lemma TwoTasksMiss<V(!new)>(
    p: Plan<V>, k: Kernels<V>, feeds: seq<map<nat, V>>, degrees: map<nat, int>, tasks: seq<Task>, t: nat)
    requires Lawful(k) && FirstOutputs(p) && Tidy(p, feeds) && IsLate(p, t) && |feeds| >= 2
    requires |tasks| > 2 && tasks[0] == Forward(0) && tasks[1] == Forward(1) && BatchesBelow(tasks, |feeds|)
    ensures var run := RunTasks(p, k, StartRun(feeds, degrees), tasks, 2);
            && (run.Some? ==> Missing(run.value.micros[1], t))
            && (t !in p.preserved && (exists op :: op in p.fw && !Passed(p, 1, op) && t in op.ins) ==> run.None?)
  {
    var start := StartRun(feeds, degrees);
    assert |start.micros| == |feeds|;
    hide Tidy, FirstOutputs, IsLate, Passed, Missing, RunPass, RunTasks, StartRun, Lawful, BatchesBelow;
    FirstForward(p, k, feeds, degrees, t);
    NextTask(p, k, start, tasks, 0);
    NextTask(p, k, start, tasks, 1);
    var first := RunTasks(p, k, start, tasks, 1);
    assert first == RunPass(p, k, start, 0, p.fw, false);
    if first.Some? {
      SecondForward(p, k, feeds, degrees, first.value, t);
    }
  }

  /** A backward of micro-batch 1 that reads the missing tensor fails. */
  lemma BackwardMisses<V(!new)>(p: Plan<V>, k: Kernels<V>, start: Run<V>, tasks: seq<Task>, j: nat, op: Op, t: nat)
    requires Lawful(k) && FirstOutputs(p) && t in p.transfers && t !in p.preserved && |start.micros| >= 2
    requires op in p.bw && !Passed(p, 1, op) && t in op.ins
    requires 2 <= j < |tasks| && tasks[j] == Backward(1) && BatchesBelow(tasks, |start.micros|)
    requires RunTasks(p, k, start, tasks, 2).Some? ==> Missing(RunTasks(p, k, start, tasks, 2).value.micros[1], t)
    ensures RunTasks(p, k, start, tasks, |tasks|).None?
  {
    if RunTasks(p, k, start, tasks, |tasks|).Some? {
      SomeBefore(p, k, start, tasks, 2, |tasks|);
      SomeBefore(p, k, start, tasks, j, |tasks|);
      SomeBefore(p, k, start, tasks, j + 1, |tasks|);
      hide FirstOutputs, Passed, Missing, RunTask, RunTasks, Lawful, BatchesBelow;
      NextTask(p, k, start, tasks, j);
      TasksMiss(p, k, start, tasks, j, t);
      TaskMisses(p, k, RunTasks(p, k, start, tasks, j).value, tasks[j], j + 1 == |tasks|, t);
    }
  }

  /** A stage before the last one, with two micro-batches at least, fails if anybody reads a late tensor. */
  lemma WarmupMisses<V(!new)>(
    p: Plan<V>, k: Kernels<V>, feeds: seq<map<nat, V>>, degrees: map<nat, int>, stages: nat, s: nat)
    requires Lawful(k) && FirstOutputs(p) && Tidy(p, feeds) && ReadsLate(p) && |feeds| >= 2 && s + 1 < stages
    ensures BatchesBelow(FlushTasks(stages, |feeds|, s), |feeds|)
    ensures var tasks := FlushTasks(stages, |feeds|, s);
            RunTasks(p, k, StartRun(feeds, degrees), tasks, |tasks|).None?
  {
    var m, tasks, start := |feeds|, FlushTasks(stages, |feeds|, s), StartRun(feeds, degrees);
    FlushBelow(stages, m, s);
    TwoForwards(stages, m, s);
    var j := SecondBackward(stages, m, s);
    var op, t := LateReader(p);
    assert |start.micros| == m;
    hide FlushTasks, FlushTask, Tidy, FirstOutputs, IsLate, ReadsLate, Passed, Missing, RunTasks, StartRun;
    hide Lawful, BatchesBelow;
    LateIsTransferred(p, t);
    TwoTasksMiss(p, k, feeds, degrees, tasks, t);
    if op in p.bw {
      BackwardMisses(p, k, start, tasks, j, op, t);
    } else if RunTasks(p, k, start, tasks, |tasks|).Some? {
      SomeBefore(p, k, start, tasks, 2, |tasks|);
    }
  }

  lemma LateIsTransferred<V>(p: Plan<V>, t: nat)
    requires IsLate(p, t)
    ensures t in p.transfers
  {
  }

  lemma LateInput<V>(p: Plan<V>, op: Op) returns (t: nat)
    requires ReadsLateTensor(p, op)
    ensures !Passed(p, 1, op) && t in op.ins && t !in p.preserved && IsLate(p, t)
  {
    t :| t in op.ins && t !in p.preserved && IsLate(p, t);
  }

  lemma LateReader<V>(p: Plan<V>) returns (op: Op, t: nat)
    requires ReadsLate(p)
    ensures (op in p.fw || op in p.bw) && !Passed(p, 1, op) && t in op.ins && t !in p.preserved && IsLate(p, t)
  {
    if o :| o in p.fw && ReadsLateTensor(p, o) {
      op := o;
    } else {
      op :| op in p.bw && ReadsLateTensor(p, op);
    }
    t := LateInput(p, op);
  }

  lemma TwoForwards(stages: nat, m: nat, s: nat)
    requires s + 1 < stages && m >= 2
    ensures var tasks := FlushTasks(stages, m, s);
            |tasks| > 2 && tasks[0] == Forward(0) && tasks[1] == Forward(1)
  {
  }

  lemma SecondBackward(stages: nat, m: nat, s: nat) returns (j: nat)
    requires s + 1 < stages && m >= 2
    ensures 2 <= j < |FlushTasks(stages, m, s)| && FlushTasks(stages, m, s)[j] == Backward(1)
  {
    var tasks := FlushTasks(stages, m, s);
    FlushInOrder(stages, m, s);
    TwoForwards(stages, m, s);
    assert tasks[..|tasks|] == tasks;
    hide FlushTasks, FlushTask, InTurn;
    j := BackwardOnce(tasks, |tasks|, 1);
  }

  // ---------- the exact condition ----------

  /** On the last stage every backward comes right after its forward. */
  lemma LastStageInTime(stages: nat, m: nat)
    requires stages >= 1 && m >= 1
    ensures InTime(true, FlushTasks(stages, m, stages - 1))
  {
    var tasks := FlushTasks(stages, m, stages - 1);
    assert tasks[0] == Forward(0) && tasks[1] == Backward(0);
    hide FlushTask;
    forall j | 0 <= j < |tasks| && tasks[j].Forward? && tasks[j].batch > 0 ensures Backwards(tasks[..j]) > 0 {
      CountsGrow(tasks, 2, j);
      assert tasks[..2] == [Forward(0), Backward(0)] && tasks[..2][..1] == [Forward(0)];
    }
  }

  /** What can be checked beforehand: the last stage, a single micro-batch, or nobody reading late tensors. */
  ghost predicate GetsThrough<V>(p: Plan<V>, m: nat, stages: nat, s: nat) {
    s + 1 == stages || m == 1 || !ReadsLate(p)
  }

  /** Where tensors made in the backward pass are handed over: on the last stage, after backward 0. */
  predicate HandsOverLate<V>(p: Plan<V>, stages: nat, s: nat) {
    s + 1 == stages && |p.bw| > 0
  }

  /**
   For a plan that would be sound if micro-batch 0 handed its tensors over after its backward
   pass, the run of a stage succeeds exactly where it gets through; and then it ends as promised,
   with the tensors handed over after the backward pass on the last stage, after the forward elsewhere.
   */
  lemma StageRunsIff<V(!new)>(
    p: Plan<V>, k: Kernels<V>, feeds: seq<map<nat, V>>, degrees: map<nat, int>, stages: nat, s: nat)
    requires Lawful(k) && Sound(p, feeds, true) && FirstOutputs(p) && StartsWith(p, degrees)
    requires |feeds| >= 1 && s < stages
    ensures BatchesBelow(StageTasks(p, stages, |feeds|, s), |feeds|)
    ensures var tasks := StageTasks(p, stages, |feeds|, s);
            var run := RunTasks(p, k, StartRun(feeds, degrees), tasks, |tasks|);
            && (run.Some? <==> GetsThrough(p, |feeds|, stages, s))
            && (run.Some? ==>
                  var late := HandsOverLate(p, stages, s);
                  Evaluates(p, k, feeds, late) && Finished(p, k, feeds, late, run.value))
  {
    hide *;
    StageBelow(p, stages, |feeds|, s);
    SoundMeans(p, feeds, true);
    GetsThroughMeans(p, |feeds|, stages, s);
    HandsOverLateMeans(p, stages, s);
    if s + 1 == stages && |p.bw| > 0 {
      StageIsFlush(p, stages, |feeds|, s);
      LastStageInTime(stages, |feeds|);
      StageComputesGradients(p, k, feeds, true, degrees, stages, s);
    } else if !ReadsLate(p) || |feeds| == 1 {
      EarlyIsEnough(p, feeds);
      EarlyInTime(StageTasks(p, stages, |feeds|, s));
      StageComputesGradients(p, k, feeds, false, degrees, stages, s);
    } else {
      NoneLate(p);
      StageIsFlush(p, stages, |feeds|, s);
      WarmupMisses(p, k, feeds, degrees, stages, s);
    }
  }

  lemma HandsOverLateMeans<V>(p: Plan<V>, stages: nat, s: nat)
    ensures HandsOverLate(p, stages, s) <==> s + 1 == stages && |p.bw| > 0
  {
  }

  lemma GetsThroughMeans<V>(p: Plan<V>, m: nat, stages: nat, s: nat)
    ensures GetsThrough(p, m, stages, s) <==> s + 1 == stages || m == 1 || !ReadsLate(p)
  {
  }

  lemma EarlyInTime(tasks: seq<Task>)
    ensures InTime(false, tasks)
  {
  }

  lemma StageIsFlush<V>(p: Plan<V>, stages: nat, m: nat, s: nat)
    requires s < stages && |p.bw| > 0
    ensures StageTasks(p, stages, m, s) == FlushTasks(stages, m, s)
  {
  }

  lemma NoneLate<V>(p: Plan<V>)
    requires ReadsLate(p)
    ensures |p.bw| > 0
  {
    var op, t := LateReader(p);
  }

  // ---------- a plan that fails ----------

  /** One transfer and one reader of it, both in the backward pass. */
  const LATE_TRANSFER: Plan<int> :=
    Plan([], [Op(0, [], [7], 0), Op(1, [7], [8], 0)], {}, {}, [7], {}, {}, {}, map[])

  const ZEROS: Kernels<int> := Kernels((o: Op, mb: nat, xs: seq<int>) => seq(|o.outs|, i => 0), v => 0, (a, b) => a + b)

  /** The plan is sound but for its late transfer, so that the first of two stages fails on two micro-batches. */
  lemma LateTransferIsMissed(degrees: map<nat, int>)
    requires StartsWith(LATE_TRANSFER, degrees)
    ensures Sound(LATE_TRANSFER, [map[], map[]], true) && FirstOutputs(LATE_TRANSFER) && ReadsLate(LATE_TRANSFER)
    ensures Lawful(ZEROS) && BatchesBelow(FlushTasks(2, 2, 0), 2)
    ensures var tasks := FlushTasks(2, 2, 0);
            RunTasks(LATE_TRANSFER, ZEROS, StartRun([map[], map[]], degrees), tasks, |tasks|).None?
  {
    LatePlan();
    LateSound([map[], map[]]);
    assert LATE_TRANSFER.bw != [];
    hide Sound, FirstOutputs, ReadsLate, StartsWith, RunTasks;
    StageRunsIff(LATE_TRANSFER, ZEROS, [map[], map[]], degrees, 2, 0);
  }

  lemma LateRuns()
    ensures Passed(LATE_TRANSFER, 1, LATE_TRANSFER.bw[0]) && !Passed(LATE_TRANSFER, 1, LATE_TRANSFER.bw[1])
    ensures !Passed(LATE_TRANSFER, 0, LATE_TRANSFER.bw[0]) && !Passed(LATE_TRANSFER, 0, LATE_TRANSFER.bw[1])
  {
    assert 7 in LATE_TRANSFER.bw[0].outs && 8 in LATE_TRANSFER.bw[1].outs;
  }

  lemma LateOuts()
    ensures Outs(LATE_TRANSFER.bw) == [7, 8] && IsLate(LATE_TRANSFER, 7)
  {
    var bw := LATE_TRANSFER.bw;
    assert bw[..1][..0] == [] && bw[..1][0] == bw[0];
    assert Outs(bw[..1]) == [7];
  }

  lemma LatePlan()
    ensures FirstOutputs(LATE_TRANSFER) && ReadsLate(LATE_TRANSFER)
  {
    LateRuns();
    LateOuts();
    hide Passed, IsLate;
    var op := LATE_TRANSFER.bw[1];
    assert 7 in op.ins && op in LATE_TRANSFER.bw && ReadsLateTensor(LATE_TRANSFER, op);
  }

  /** The backward pass finds its inputs when it starts with tensor 7 or makes it. */
  lemma LateReady(mb: nat, known: set<nat>)
    requires mb == 0 || (mb == 1 && 7 in known)
    ensures Ready(LATE_TRANSFER, mb, LATE_TRANSFER.fw, known)
    ensures Made(LATE_TRANSFER, mb, LATE_TRANSFER.fw, known) == known
    ensures Ready(LATE_TRANSFER, mb, LATE_TRANSFER.bw, known)
    ensures mb == 0 ==> 7 in Made(LATE_TRANSFER, mb, LATE_TRANSFER.bw, known)
  {
    var p := LATE_TRANSFER;
    LateRuns();
    hide Passed;
    assert p.fw == [] && |p.bw| == 2 && p.bw[0].ins == [] && p.bw[1].ins == [7] && 7 in p.bw[0].outs;
    assert mb == 0 ==> MadeBefore(p, mb, p.bw, 1, 7);
    MadeIff(p, mb, p.bw, known, 7);
  }

  lemma LateSound(feeds: seq<map<nat, int>>)
    requires feeds == [map[], map[]]
    ensures Sound(LATE_TRANSFER, feeds, true) && Lawful(ZEROS)
  {
    var p := LATE_TRANSFER;
    LateWellFormed();
    hide WellFormed, Ready, Made;
    assert p.fed == {} && p.accumulated == {} && p.transfers == [7];
    LateReady(0, feeds[0].Keys);
    assert Connected(p, feeds, true, 0);
    assert 7 in HandedKeys(p, feeds, true) && 7 in p.transfers;
    LateReady(1, StartKeys(p, feeds, true, 1));
    assert Connected(p, feeds, true, 1);
  }

  lemma LateWellFormed()
    ensures WellFormed(LATE_TRANSFER) && Lawful(ZEROS)
  {
    var p := LATE_TRANSFER;
    LateOuts();
    hide Outs, Passed, IsLate;
    assert p.fw + p.bw == p.bw;
  }
}
