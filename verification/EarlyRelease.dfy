/** Nothing outlives its last use: the other half of releasing early. */
module EarlyRelease {
  import opened Collections
  import opened Executor
  import opened PipelineSchedule
  import opened CrucialRuns

  /** Every tensor held is still to be read, is never read at all, or is to be kept anyway. */
  ghost predicate Lean<V(!new)>(all: seq<Op>, keep: set<nat>, st: Micro<V>) {
    forall t <- st.data :: Degree(st.degrees, t) > 0 || Uses(all, t) == 0 || t in keep
  }

  /** What a pass of micro-batch `mb` keeps: what is asked for, accumulated or, in micro-batch 0, handed over. */
  ghost predicate Keeps<V(!new)>(p: Plan<V>, mb: nat, keep: set<nat>) {
    && p.fetched <= keep && p.accumulated <= keep
    && (mb == 0 ==> forall t <- p.transfers :: t in keep)
  }

  // ---------- one pass ----------

  lemma {:induction false} TakesStayLean<V(!new)>(
    p: Plan<V>, mb: nat, all: seq<Op>, keep: set<nat>, st: Micro<V>, ts: seq<nat>)
    requires Keeps(p, mb, keep) && Lean(all, keep, st) && TakeAll(p, mb, st, ts).Some?
    ensures Lean(all, keep, TakeAll(p, mb, st, ts).value.1)
  {
    hide Uses;
    if ts != [] {
      var n := |ts| - 1;
      TakesStayLean(p, mb, all, keep, st, ts[..n]);
      var most := TakeAll(p, mb, st, ts[..n]).value.1;
      assert Take(p, mb, most, ts[n]).Some?;
    }
  }

  lemma {:induction false} PutsStayLean<V(!new)>(
    p: Plan<V>, k: Kernels<V>, mb: nat, all: seq<Op>, keep: set<nat>, st: Micro<V>, acc: map<nat, V>,
    ts: seq<nat>, vs: seq<V>, finished: bool)
    requires Keeps(p, mb, keep) && Lean(all, keep, st) && |ts| == |vs|
    ensures Lean(all, keep, PutAll(p, k, st, acc, ts, vs, finished).0)
  {
    hide Uses;
    if ts != [] {
      PutsStayLean(p, k, mb, all, keep, st, acc, ts[..|ts| - 1], vs[..|ts| - 1], finished);
    }
  }

  /** A pass drops every tensor at its last use, and stores nothing that nobody will read. */
  lemma {:induction false} PassStaysLean<V(!new)>(
    p: Plan<V>, k: Kernels<V>, mb: nat, ops: seq<Op>, all: seq<Op>, keep: set<nat>, finished: bool,
    st: Micro<V>, acc: map<nat, V>)
    requires Lawful(k) && Keeps(p, mb, keep) && Lean(all, keep, st)
    requires RunTopo(p, k, mb, ops, finished, st, acc).Some?
    ensures Lean(all, keep, RunTopo(p, k, mb, ops, finished, st, acc).value.0)
  {
    hide Keeps, Lean, TakeAll, PutAll, Runs, Lawful;
    if ops != [] {
      var n := |ops| - 1;
      PassStaysLean(p, k, mb, ops[..n], all, keep, finished, st, acc);
      var (now, acc') := RunTopo(p, k, mb, ops[..n], finished, st, acc).value;
      if Runs(p, mb, ops[n]) {
        TakesStayLean(p, mb, all, keep, now, ops[n].ins);
        var (xs, next) := TakeAll(p, mb, now, ops[n].ins).value;
        ComputesAll(k, ops[n], mb, xs);
        PutsStayLean(p, k, mb, all, keep, next, acc', ops[n].outs, k.compute(ops[n], mb, xs), finished);
      }
    }
  }

  // ---------- a whole stage ----------

  ghost predicate AllLean<V(!new)>(all: seq<Op>, keep: set<nat>, run: Run<V>) {
    forall i | 0 <= i < |run.micros| :: Lean(all, keep, run.micros[i])
  }

  lemma {:induction false} ReuseStaysLean<V(!new)>(
    order: seq<nat>, all: seq<Op>, keep: set<nat>, zero: Micro<V>, now: Micro<V>)
    requires (forall t <- order :: t in keep) && Lean(all, keep, zero) && Lean(all, keep, now)
    ensures Lean(all, keep, Reuse(order, zero, now).0) && Lean(all, keep, Reuse(order, zero, now).1)
    decreases |order|
  {
    hide Uses, Degree;
    if order != [] && !now.Has(order[0]) {
      var (zero', now') := ReuseOne(order[0], zero, now);
      assert order[0] in order && forall t <- order[1..] :: t in order;
      ReuseStaysLean(order[1..], all, keep, zero', now');
    }
  }

  lemma TaskStaysLean<V(!new)>(
    p: Plan<V>, k: Kernels<V>, all: seq<Op>, keep: set<nat>, run: Run<V>, task: Task, last: bool)
    requires Lawful(k) && Keeps(p, 0, keep) && AllLean(all, keep, run)
    requires (!task.Bubble? ==> task.batch < |run.micros|) && RunTask(p, k, run, task, last).Some?
    ensures AllLean(all, keep, RunTask(p, k, run, task, last).value)
  {
    if !task.Bubble? {
      var i, ops := task.batch, if task.Forward? then p.fw else p.bw;
      assert Keeps(p, i, keep) && forall t <- p.transfers :: t in keep;
      hide Keeps, Lean, Reuse, RunTopo, Lawful;
      var ready := Reused(p, run, i);
      if i > 0 {
        ReuseStaysLean(p.transfers, all, keep, run.micros[0], run.micros[i]);
      }
      PassStaysLean(p, k, i, ops, all, keep, task.Backward? && last, ready.micros[i], ready.acc);
    }
  }

  lemma {:induction false} TasksStayLean<V(!new)>(
    p: Plan<V>, k: Kernels<V>, all: seq<Op>, keep: set<nat>, start: Run<V>, tasks: seq<Task>, n: nat)
    requires Lawful(k) && n <= |tasks| && BatchesBelow(tasks, |start.micros|)
    requires Keeps(p, 0, keep) && AllLean(all, keep, start) && RunTasks(p, k, start, tasks, n).Some?
    ensures AllLean(all, keep, RunTasks(p, k, start, tasks, n).value)
  {
    hide Keeps, AllLean, Lawful, RunTask;
    if n > 0 {
      TasksStayLean(p, k, all, keep, start, tasks, n - 1);
      TaskStaysLean(p, k, all, keep, RunTasks(p, k, start, tasks, n - 1).value, tasks[n - 1], n == |tasks|);
    }
  }

  lemma {:induction false} UnusedReader<V(!new)>(p: Plan<V>, mb: nat, ops: seq<Op>, t: nat)
    requires t !in p.preserved && Used(p, mb, ops, t) < Uses(ops, t)
    ensures exists op :: op in ops && Passed(p, mb, op) && t in op.ins
  {
    hide Passed, Runs;
    if ops != [] {
      var n := |ops| - 1;
      assert ops[n] in ops && forall op <- ops[..n] :: op in ops;
      RunsUnlessPassed(p, mb, ops[n]);
      if Runs(p, mb, ops[n]) || t !in ops[n].ins {
        UnusedReader(p, mb, ops[..n], t);
      }
    }
  }

  lemma {:induction false} NoUse(ops: seq<Op>, t: nat)
    ensures Uses(ops, t) == 0 <==> forall op <- ops :: t !in op.ins
  {
    if ops != [] {
      var n := |ops| - 1;
      assert ops[n] in ops && forall op <- ops :: op in ops[..n] || op == ops[n];
      NoUse(ops[..n], t);
    }
  }

  /**
   After a stage, a micro-batch holds a tensor only if it is asked for, accumulated, handed over or preserved, if
   no operation reads it at all, or if an operation that reads it was passed over.
   */
  lemma StageReleases<V(!new)>(p: Plan<V>, k: Kernels<V>, feeds: seq<map<nat, V>>, late: bool, degrees: map<nat, int>,
                               tasks: seq<Task>, run: Run<V>, i: nat, t: nat)
    requires Evaluates(p, k, feeds, late) && StartsWith(p, degrees) && i < |feeds| && BatchesBelow(tasks, |feeds|)
    requires |StartRun(feeds, degrees).micros| == |feeds|
    requires RunTasks(p, k, StartRun(feeds, degrees), tasks, |tasks|) == Some(run)
    requires Finished(p, k, feeds, late, run) && t in run.micros[i].data
    ensures || t in p.fetched || t in p.accumulated || t in p.transfers || t in p.preserved
            || (forall op <- p.fw + p.bw :: t !in op.ins)
            || exists op :: op in p.fw + p.bw && Passed(p, i, op) && t in op.ins
  {
    hide *;
    var all, start := p.fw + p.bw, StartRun(feeds, degrees);
    var keep := p.fetched + p.accumulated + set u | u in p.transfers;
    EvaluatesMeans(p, k, feeds, late, degrees);
    StartLean(p, feeds, degrees, keep);
    KeepsThese(p, keep);
    TasksStayLean(p, k, all, keep, start, tasks, |tasks|);
    NoUse(all, t);
    HeldFor(p, k, feeds, late, run, keep, i, t);
    if t !in p.preserved && Used(p, i, all, t) < Uses(all, t) {
      UnusedReader(p, i, all, t);
    }
  }

  lemma KeepsThese<V(!new)>(p: Plan<V>, keep: set<nat>)
    requires keep == p.fetched + p.accumulated + set u | u in p.transfers
    ensures Keeps(p, 0, keep)
  {
  }

  lemma StartLean<V(!new)>(p: Plan<V>, feeds: seq<map<nat, V>>, degrees: map<nat, int>, keep: set<nat>)
    requires StartsWith(p, degrees)
    ensures AllLean(p.fw + p.bw, keep, StartRun(feeds, degrees))
  {
    hide Uses, Degree;
  }

  lemma HeldFor<V(!new)>(p: Plan<V>, k: Kernels<V>, feeds: seq<map<nat, V>>, late: bool, run: Run<V>,
                         keep: set<nat>, i: nat, t: nat)
    requires Evaluates(p, k, feeds, late) && |feeds| >= 1 && Finished(p, k, feeds, late, run) && i < |feeds|
    requires |run.micros| == |feeds| && AllLean(p.fw + p.bw, keep, run) && t in run.micros[i].data
    ensures t in keep || Uses(p.fw + p.bw, t) == 0 || Used(p, i, p.fw + p.bw, t) < Uses(p.fw + p.bw, t)
  {
    hide Uses, Used, Degree, EnvAll, Holds, TotalsIn, Tidy, Lawful;
    assert EnvAll(p, k, feeds, late, i).Some?;
    assert Counted(p, i, p.fw + p.bw, p.fw + p.bw, run.micros[i]);
    assert Lean(p.fw + p.bw, keep, run.micros[i]);
  }
}
