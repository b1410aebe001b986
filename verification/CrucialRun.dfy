/** The task loop of a stage, against the interpreter that never erases. */
module CrucialRuns {
  import opened Collections
  import opened Executor
  import opened GradientAccumulation
  import opened PipelineSchedule
  import opened ReadyInputs

  datatype Run<V> = Run(micros: seq<Micro<V>>, acc: map<nat, V>)

  // ---------- the task loop ----------

  /**
   Copies the transferred tensors of micro-batch 0, stopping at the first one already there.
   Reading a missing one of micro-batch 0 leaves an undefined entry behind.
   */
  function Reuse<V>(order: seq<nat>, zero: Micro<V>, now: Micro<V>): (Micro<V>, Micro<V>) {
    if order == [] || now.Has(order[0]) then (zero, now) else
      var (zero', now') := ReuseOne(order[0], zero, now);
      Reuse(order[1..], zero', now')
  }

  function ReuseOne<V>(t: nat, zero: Micro<V>, now: Micro<V>): (Micro<V>, Micro<V>) {
    if t in zero.data then (zero, now.Set(t, zero.data[t]))
    else (zero.(undefined := zero.undefined + {t}), now.(undefined := now.undefined + {t}))
  }

  function Reused<V>(p: Plan<V>, run: Run<V>, i: nat): (r: Run<V>)
    requires i < |run.micros|
    ensures |r.micros| == |run.micros|
  {
    if i == 0 then run else
      var (zero, now) := Reuse(p.transfers, run.micros[0], run.micros[i]);
      run.(micros := run.micros[0 := zero][i := now])
  }

  function RunPass<V(!new)>(
    p: Plan<V>, k: Kernels<V>, run: Run<V>, i: nat, ops: seq<Op>, finished: bool): (r: Option<Run<V>>)
    requires Lawful(k) && i < |run.micros|
    ensures r.Some? ==> |r.value.micros| == |run.micros|
  {
    var ready := Reused(p, run, i);
    var out := RunTopo(p, k, i, ops, finished, ready.micros[i], ready.acc);
    if out.None? then None else Some(Run(ready.micros[i := out.value.0], out.value.1))
  }

  /** One task; `last` marks the last task of the list. */
  function RunTask<V(!new)>(p: Plan<V>, k: Kernels<V>, run: Run<V>, task: Task, last: bool): (r: Option<Run<V>>)
    requires Lawful(k) && (!task.Bubble? ==> task.batch < |run.micros|)
    ensures r.Some? ==> |r.value.micros| == |run.micros|
  {
    match task
    case Bubble(_) => Some(run)
    case Forward(i) => RunPass(p, k, run, i, p.fw, false)
    case Backward(i) => RunPass(p, k, run, i, p.bw, last)
  }

  predicate BatchesBelow(tasks: seq<Task>, m: nat) {
    forall j | 0 <= j < |tasks| :: !tasks[j].Bubble? ==> tasks[j].batch < m
  }

  /** The first `n` tasks of a list. */
  function RunTasks<V(!new)>(p: Plan<V>, k: Kernels<V>, start: Run<V>, tasks: seq<Task>, n: nat): (r: Option<Run<V>>)
    requires Lawful(k) && n <= |tasks| && BatchesBelow(tasks, |start.micros|)
    ensures r.Some? ==> |r.value.micros| == |start.micros|
  {
    if n == 0 then Some(start) else
      var run := RunTasks(p, k, start, tasks, n - 1);
      if run.None? then None else RunTask(p, k, run.value, tasks[n - 1], n == |tasks|)
  }

  function Initial<V>(feed: map<nat, V>, degrees: map<nat, int>): Micro<V> {
    Micro(feed, {}, degrees)
  }

  // ---------- every micro-batch on its own ----------

  function Transferred<V>(p: Plan<V>, env: map<nat, V>): map<nat, V> {
    map t | t in env && t in p.transfers :: env[t]
  }

  /** What micro-batch 0 has when its tensors are handed on: after its forward, or (`late`) after its backward too. */
  function HandedOver<V(!new)>(p: Plan<V>, k: Kernels<V>, feeds: seq<map<nat, V>>, late: bool): Option<map<nat, V>>
    requires Lawful(k) && |feeds| > 0
  {
    var env := NaiveTopo(p, k, 0, p.fw, feeds[0]);
    if env.None? || !late then env else NaiveTopo(p, k, 0, p.bw, env.value)
  }

  function EnvStart<V(!new)>(
    p: Plan<V>, k: Kernels<V>, feeds: seq<map<nat, V>>, late: bool, i: nat): Option<map<nat, V>>
    requires Lawful(k) && i < |feeds|
  {
    if i == 0 then Some(feeds[0]) else
      var env := HandedOver(p, k, feeds, late);
      if env.None? then None else Some(feeds[i] + Transferred(p, env.value))
  }

  function EnvForward<V(!new)>(
    p: Plan<V>, k: Kernels<V>, feeds: seq<map<nat, V>>, late: bool, i: nat): Option<map<nat, V>>
    requires Lawful(k) && i < |feeds|
  {
    var env := EnvStart(p, k, feeds, late, i);
    if env.None? then None else NaiveTopo(p, k, i, p.fw, env.value)
  }

  function EnvAll<V(!new)>(p: Plan<V>, k: Kernels<V>, feeds: seq<map<nat, V>>, late: bool, i: nat): Option<map<nat, V>>
    requires Lawful(k) && i < |feeds|
  {
    var env := EnvForward(p, k, feeds, late, i);
    if env.None? then None else NaiveTopo(p, k, i, p.bw, env.value)
  }

  /** What the plan promises about its tensors. */
  ghost predicate Tidy<V>(p: Plan<V>, feeds: seq<map<nat, V>>) {
    && WellFormed(p) && NoDup(p.transfers)
    && (forall i | 0 <= i < |feeds| :: forall t <- feeds[i] :: t in p.fed)
    && (forall t <- p.accumulated :: t !in Outs(p.fw))
  }

  /**
   The plan is tidy, and every input an operation reads is preserved, fed, handed over or made by an
   earlier operation that runs.
   */
  ghost predicate Sound<V>(p: Plan<V>, feeds: seq<map<nat, V>>, late: bool) {
    Tidy(p, feeds) && forall i | 0 <= i < |feeds| :: Connected(p, feeds, late, i)
  }

  /** The interpreter that never erases gets through every micro-batch. */
  ghost predicate Evaluates<V(!new)>(p: Plan<V>, k: Kernels<V>, feeds: seq<map<nat, V>>, late: bool) {
    Lawful(k) && Tidy(p, feeds) && forall i | 0 <= i < |feeds| :: EnvAll(p, k, feeds, late, i).Some?
  }

  /** Whether it does can be told from the plan and from what is fed. */
  lemma SoundIff<V(!new)>(p: Plan<V>, k: Kernels<V>, feeds: seq<map<nat, V>>, late: bool)
    requires Lawful(k)
    ensures Evaluates(p, k, feeds, late) <==> Sound(p, feeds, late)
  {
    hide *;
    SoundMeans(p, feeds, late);
    EvaluatesIs(p, k, feeds, late);
    if |feeds| > 0 {
      ConnectedIff(p, k, feeds, late, 0);
      forall i | 0 <= i < |feeds| && EnvAll(p, k, feeds, late, 0).Some?
        ensures EnvAll(p, k, feeds, late, i).Some? <==> Connected(p, feeds, late, i)
      {
        ConnectedIff(p, k, feeds, late, i);
      }
    }
  }

  lemma SoundMeans<V>(p: Plan<V>, feeds: seq<map<nat, V>>, late: bool)
    ensures Sound(p, feeds, late) <==> Tidy(p, feeds) && forall i | 0 <= i < |feeds| :: Connected(p, feeds, late, i)
  {
    hide Tidy, Connected;
  }

  lemma EvaluatesIs<V(!new)>(p: Plan<V>, k: Kernels<V>, feeds: seq<map<nat, V>>, late: bool)
    requires Lawful(k)
    ensures Evaluates(p, k, feeds, late)
       <==> Tidy(p, feeds) && forall i | 0 <= i < |feeds| :: EnvAll(p, k, feeds, late, i).Some?
  {
    hide Tidy, EnvAll;
  }

  lemma ConnectedIff<V(!new)>(p: Plan<V>, k: Kernels<V>, feeds: seq<map<nat, V>>, late: bool, i: nat)
    requires Lawful(k) && i < |feeds| && (i > 0 ==> EnvAll(p, k, feeds, late, 0).Some?)
    ensures EnvAll(p, k, feeds, late, i).Some? <==> Connected(p, feeds, late, i)
  {
    StartKeysAre(p, k, feeds, late, i);
    hide Ready, NaiveTopo, Made, Lawful, EnvStart, StartKeys;
    var env := EnvStart(p, k, feeds, late, i).value;
    NaiveReadyIff(p, k, i, p.fw, env);
    if NaiveTopo(p, k, i, p.fw, env).Some? {
      NaiveReadyIff(p, k, i, p.bw, NaiveTopo(p, k, i, p.fw, env).value);
    }
  }

  lemma StartKeysAre<V(!new)>(p: Plan<V>, k: Kernels<V>, feeds: seq<map<nat, V>>, late: bool, i: nat)
    requires Lawful(k) && i < |feeds| && (i > 0 ==> EnvAll(p, k, feeds, late, 0).Some?)
    ensures EnvStart(p, k, feeds, late, i).Some?
    ensures EnvStart(p, k, feeds, late, i).value.Keys == StartKeys(p, feeds, late, i)
  {
    hide Ready, NaiveTopo, Made, Lawful;
    if i > 0 {
      NaiveReadyIff(p, k, 0, p.fw, feeds[0]);
      var env := NaiveTopo(p, k, 0, p.fw, feeds[0]).value;
      NaiveReadyIff(p, k, 0, p.bw, env);
      assert HandedOver(p, k, feeds, late).value.Keys == HandedKeys(p, feeds, late);
    }
  }

  /** The sum of tensor `t` over the first `b` micro-batches, each counted once. */
  ghost function GradSum<V(!new)>(
    p: Plan<V>, k: Kernels<V>, feeds: seq<map<nat, V>>, late: bool, b: nat, t: nat): Option<V>
    requires Evaluates(p, k, feeds, late) && b <= |feeds|
  {
    if b == 0 then None else
      var sum, env := GradSum(p, k, feeds, late, b - 1, t), EnvAll(p, k, feeds, late, b - 1).value;
      if Produced(p, b - 1, p.bw, t) && t in env then Some(Added(k, sum, env[t])) else sum
  }

  // ---------- the invariant of the loop ----------

  ghost predicate StartsWith<V>(p: Plan<V>, degrees: map<nat, int>) {
    forall t: nat :: Degree(degrees, t) == Uses(p.fw + p.bw, t)
  }

  ghost predicate MicroInv<V(!new)>(
    p: Plan<V>, k: Kernels<V>, feeds: seq<map<nat, V>>, late: bool, degrees: map<nat, int>, st: Micro<V>,
    i: nat, f: nat, b: nat)
    requires Evaluates(p, k, feeds, late) && i < |feeds|
  {
    assert EnvAll(p, k, feeds, late, i).Some?;
    if i < b then Agrees(p, i, p.fw + p.bw, EnvAll(p, k, feeds, late, i).value, st)
    else if i < f then Agrees(p, i, p.fw, EnvForward(p, k, feeds, late, i).value, st)
    else st == Initial(feeds[i], degrees)
  }

  ghost predicate SumsInv<V(!new)>(
    p: Plan<V>, k: Kernels<V>, feeds: seq<map<nat, V>>, late: bool, acc: map<nat, V>, b: nat)
    requires Evaluates(p, k, feeds, late) && b <= |feeds|
  {
    forall t <- p.accumulated :: Lookup(acc, t) == GradSum(p, k, feeds, late, b, t)
  }

  /** After `f` forwards and `b` backwards: each micro-batch agrees, and the sums cover the first `b`. */
  ghost predicate LoopInv<V(!new)>(
    p: Plan<V>, k: Kernels<V>, feeds: seq<map<nat, V>>, late: bool, degrees: map<nat, int>, run: Run<V>,
    f: nat, b: nat)
  {
    && Evaluates(p, k, feeds, late) && StartsWith(p, degrees) && |run.micros| == |feeds| && b <= f <= |feeds|
    && (forall i | 0 <= i < |feeds| :: MicroInv(p, k, feeds, late, degrees, run.micros[i], i, f, b))
    && SumsInv(p, k, feeds, late, run.acc, b)
  }

  // ---------- reusing the transferred tensors ----------

  /** Nothing that was defined is lost or changed. */
  ghost predicate Grows<V>(was: Micro<V>, now: Micro<V>) {
    now.degrees == was.degrees && forall t <- was.data :: t in now.data && now.data[t] == was.data[t]
  }

  lemma {:induction false} ReuseKeeps<V>(order: seq<nat>, zero: Micro<V>, now: Micro<V>)
    ensures Grows(zero, Reuse(order, zero, now).0) && Grows(now, Reuse(order, zero, now).1)
    decreases |order|
  {
    if order != [] && !now.Has(order[0]) {
      var (zero', now') := ReuseOne(order[0], zero, now);
      ReuseKeeps(order[1..], zero', now');
    }
  }

  lemma {:induction false} ReuseCopies<V>(order: seq<nat>, zero: Micro<V>, now: Micro<V>, t: nat)
    requires NoDup(order) && (forall u <- order :: !now.Has(u)) && t in order && t in zero.data
    ensures t in Reuse(order, zero, now).1.data && Reuse(order, zero, now).1.data[t] == zero.data[t]
    decreases |order|
  {
    var (zero', now') := ReuseOne(order[0], zero, now);
    assert order[0] in order;
    assert order == [order[0]] + order[1..];
    ReuseKeeps(order[1..], zero', now');
    if order[0] != t {
      forall u | u in order[1..] ensures !now'.Has(u) {
        var i := IndexOf(order[1..], u);
        assert order[i + 1] == u && order[0] != order[i + 1];
        assert u in order;
      }
      ReuseCopies(order[1..], zero', now', t);
    }
  }

  /** More data never hurts. */
  lemma AgreesMore<V>(p: Plan<V>, mb: nat, done: seq<Op>, env: map<nat, V>, st: Micro<V>, more: Micro<V>)
    requires Agrees(p, mb, done, env, st) && Grows(st, more)
    ensures Agrees(p, mb, done, env, more)
  {
  }

  /** What is to be transferred is still defined in micro-batch 0, whichever pass it has reached. */
  lemma TransfersReady<V(!new)>(p: Plan<V>, k: Kernels<V>, feeds: seq<map<nat, V>>, late: bool, degrees: map<nat, int>,
                                run: Run<V>, f: nat, b: nat, t: nat)
    requires LoopInv(p, k, feeds, late, degrees, run, f, b) && f > 0 && (late ==> b > 0)
    requires t in p.transfers && t !in p.accumulated
    requires HandedOver(p, k, feeds, late).Some? && t in HandedOver(p, k, feeds, late).value
    requires Uses(p.fw + p.bw, t) > 0 || t in p.fetched
    ensures t in run.micros[0].data && run.micros[0].data[t] == HandedOver(p, k, feeds, late).value[t]
  {
    assert MicroInv(p, k, feeds, late, degrees, run.micros[0], 0, f, b);
    assert EnvAll(p, k, feeds, late, 0).Some?;
    if b > 0 && !late {
      var env := EnvForward(p, k, feeds, late, 0).value;
      NaiveKeeps(p, k, 0, p.fw, feeds[0], t);
      NaiveKeeps(p, k, 0, p.bw, env, t);
      ForwardOutsOnly(p, t);
    }
  }

  lemma ForwardOutsOnly<V>(p: Plan<V>, t: nat)
    requires NoDup(Outs(p.fw + p.bw)) && t in Outs(p.fw)
    ensures t !in Outs(p.bw)
  {
    OutsAppend(p.fw, p.bw);
    var o, i := Outs(p.fw + p.bw), IndexOf(Outs(p.fw), t);
    assert o[i] == t;
    forall j | 0 <= j < |Outs(p.bw)| ensures Outs(p.bw)[j] != t {
      assert o[|Outs(p.fw)| + j] == Outs(p.bw)[j] && o[i] != o[|Outs(p.fw)| + j];
    }
  }

  /** A micro-batch about to run forward agrees with its own start environment. */
  lemma StartAgrees<V(!new)>(
    p: Plan<V>, k: Kernels<V>, feeds: seq<map<nat, V>>, late: bool, degrees: map<nat, int>, run: Run<V>,
    i: nat, b: nat)
    requires LoopInv(p, k, feeds, late, degrees, run, i, b) && i < |feeds| && (late && i > 0 ==> b > 0)
    ensures EnvStart(p, k, feeds, late, i).Some?
    ensures Agrees(p, i, [], EnvStart(p, k, feeds, late, i).value, Reused(p, run, i).micros[i])
  {
    assert MicroInv(p, k, feeds, late, degrees, run.micros[i], i, i, b);
    assert EnvAll(p, k, feeds, late, i).Some?;
    var st, env := Reused(p, run, i).micros[i], EnvStart(p, k, feeds, late, i).value;
    if i > 0 {
      assert EnvAll(p, k, feeds, late, 0).Some?;
      ReuseKeeps(p.transfers, run.micros[0], run.micros[i]);
      assert st.degrees == degrees;
      forall t | t in env && t !in p.accumulated && Wanted(p, i, p.fw + p.bw, st.degrees, t)
        ensures t in st.data && st.data[t] == env[t]
      {
        StartData(p, k, feeds, late, degrees, run, i, b, t);
      }
    }
  }

  lemma StartData<V(!new)>(
    p: Plan<V>, k: Kernels<V>, feeds: seq<map<nat, V>>, late: bool, degrees: map<nat, int>, run: Run<V>,
    i: nat, b: nat, t: nat)
    requires LoopInv(p, k, feeds, late, degrees, run, i, b) && (late ==> b > 0)
    requires 0 < i < |feeds| && EnvStart(p, k, feeds, late, i).Some?
    requires t in EnvStart(p, k, feeds, late, i).value && t !in p.accumulated
    requires Uses(p.fw + p.bw, t) > 0 || t in p.fetched
    ensures t in Reused(p, run, i).micros[i].data
    ensures Reused(p, run, i).micros[i].data[t] == EnvStart(p, k, feeds, late, i).value[t]
  {
    assert MicroInv(p, k, feeds, late, degrees, run.micros[i], i, i, b);
    var zero, now := run.micros[0], run.micros[i];
    ReuseKeeps(p.transfers, zero, now);
    if t in p.transfers && t in HandedOver(p, k, feeds, late).value {
      TransfersReady(p, k, feeds, late, degrees, run, i, b, t);
      ReuseCopies(p.transfers, zero, now, t);
    }
  }

  // ---------- one task keeps the invariant ----------

  lemma SumsAfterForward<V(!new)>(
    p: Plan<V>, k: Kernels<V>, feeds: seq<map<nat, V>>, late: bool, i: nat, st: Micro<V>, acc: map<nat, V>,
    b: nat)
    requires Evaluates(p, k, feeds, late) && i < |feeds| && b <= |feeds| && SumsInv(p, k, feeds, late, acc, b)
    requires EnvStart(p, k, feeds, late, i).Some? && Agrees(p, i, [], EnvStart(p, k, feeds, late, i).value, st)
    requires EnvForward(p, k, feeds, late, i).Some?
    ensures RunTopo(p, k, i, p.fw, false, st, acc).Some?
    ensures SumsInv(p, k, feeds, late, RunTopo(p, k, i, p.fw, false, st, acc).value.1, b)
  {
    var env := EnvStart(p, k, feeds, late, i).value;
    assert p.fw + p.bw == [] + p.fw + p.bw;
    RunTopoAgrees(p, k, i, [], p.fw, p.bw, env, st, acc, false);
    forall t | t in p.accumulated
      ensures Lookup(RunTopo(p, k, i, p.fw, false, st, acc).value.1, t) == GradSum(p, k, feeds, late, b, t)
    {
      PassAccumulates(p, k, i, [], p.fw, p.bw, env, st, acc, false, t);
      NaiveKeeps(p, k, i, p.fw, env, t);
    }
  }

  lemma ForwardKeeps<V(!new)>(
    p: Plan<V>, k: Kernels<V>, feeds: seq<map<nat, V>>, late: bool, degrees: map<nat, int>, run: Run<V>,
    i: nat, b: nat)
    requires LoopInv(p, k, feeds, late, degrees, run, i, b) && i < |feeds| && (late && i > 0 ==> b > 0)
    ensures RunPass(p, k, run, i, p.fw, false).Some?
    ensures LoopInv(p, k, feeds, late, degrees, RunPass(p, k, run, i, p.fw, false).value, i + 1, b)
  {
    StartAgrees(p, k, feeds, late, degrees, run, i, b);
    assert EnvAll(p, k, feeds, late, i).Some?;
    var ready := Reused(p, run, i);
    SumsAfterForward(p, k, feeds, late, i, ready.micros[i], ready.acc, b);
    assert p.fw + p.bw == [] + p.fw + p.bw && [] + p.fw == p.fw;
    RunTopoAgrees(p, k, i, [], p.fw, p.bw, EnvStart(p, k, feeds, late, i).value, ready.micros[i], ready.acc, false);
    var next := RunPass(p, k, run, i, p.fw, false).value;
    forall j | 0 <= j < |feeds| ensures MicroInv(p, k, feeds, late, degrees, next.micros[j], j, i + 1, b) {
      if j != i { OthersKeep(p, k, feeds, late, degrees, run, i, i, b, j); }
    }
  }

  /** Running micro-batch `i` leaves the others as they were, or with more undefined entries. */
  lemma OthersKeep<V(!new)>(
    p: Plan<V>, k: Kernels<V>, feeds: seq<map<nat, V>>, late: bool, degrees: map<nat, int>, run: Run<V>,
    i: nat, f: nat, b: nat, j: nat)
    requires LoopInv(p, k, feeds, late, degrees, run, f, b) && i < |feeds| && j < |feeds| && j != i && i <= f
    ensures MicroInv(p, k, feeds, late, degrees, Reused(p, run, i).micros[j], j, f, b)
  {
    assert MicroInv(p, k, feeds, late, degrees, run.micros[j], j, f, b);
    if i > 0 && j == 0 {
      ReuseKeeps(p.transfers, run.micros[0], run.micros[i]);
      var zero := Reuse(p.transfers, run.micros[0], run.micros[i]).0;
      if b > 0 {
        AgreesMore(p, 0, p.fw + p.bw, EnvAll(p, k, feeds, late, 0).value, run.micros[0], zero);
      } else {
        assert EnvAll(p, k, feeds, late, 0).Some?;
        AgreesMore(p, 0, p.fw, EnvForward(p, k, feeds, late, 0).value, run.micros[0], zero);
      }
    }
  }

  lemma ReadyForBackward<V(!new)>(
    p: Plan<V>, k: Kernels<V>, feeds: seq<map<nat, V>>, late: bool, degrees: map<nat, int>, run: Run<V>,
    f: nat, i: nat)
    requires LoopInv(p, k, feeds, late, degrees, run, f, i) && i < f
    ensures EnvForward(p, k, feeds, late, i).Some? && EnvAll(p, k, feeds, late, i).Some?
    ensures Agrees(p, i, p.fw, EnvForward(p, k, feeds, late, i).value, Reused(p, run, i).micros[i])
  {
    assert MicroInv(p, k, feeds, late, degrees, run.micros[i], i, f, i);
    assert EnvAll(p, k, feeds, late, i).Some?;
    if i > 0 {
      ReuseKeeps(p.transfers, run.micros[0], run.micros[i]);
      AgreesMore(p, i, p.fw, EnvForward(p, k, feeds, late, i).value, run.micros[i],
                 Reuse(p.transfers, run.micros[0], run.micros[i]).1);
    }
  }

  lemma SumsAfterBackward<V(!new)>(
    p: Plan<V>, k: Kernels<V>, feeds: seq<map<nat, V>>, late: bool, i: nat, st: Micro<V>, acc: map<nat, V>,
    last: bool)
    requires Evaluates(p, k, feeds, late) && i < |feeds| && SumsInv(p, k, feeds, late, acc, i)
    requires EnvForward(p, k, feeds, late, i).Some? && Agrees(p, i, p.fw, EnvForward(p, k, feeds, late, i).value, st)
    requires EnvAll(p, k, feeds, late, i).Some?
    ensures RunTopo(p, k, i, p.bw, last, st, acc).Some?
    ensures var (next, acc') := RunTopo(p, k, i, p.bw, last, st, acc).value;
            && SumsInv(p, k, feeds, late, acc', i + 1)
            && (last ==> TotalsIn(p, k, feeds, late, i + 1, next))
  {
    var env := EnvForward(p, k, feeds, late, i).value;
    assert p.fw + p.bw == p.fw + p.bw + [];
    RunTopoAgrees(p, k, i, p.fw, p.bw, [], env, st, acc, last);
    var (next, acc') := RunTopo(p, k, i, p.bw, last, st, acc).value;
    forall t | t in p.accumulated ensures Lookup(acc', t) == GradSum(p, k, feeds, late, i + 1, t)
                                  ensures last && Produced(p, i, p.bw, t) ==>
                                            Lookup(acc', t).Some? && Lookup(next.data, t) == Lookup(acc', t)
    {
      PassAccumulates(p, k, i, p.fw, p.bw, [], env, st, acc, last, t);
      NaiveKeeps(p, k, i, p.bw, env, t);
    }
  }

  /** The accumulated tensors of the last backward are in the data with their totals. */
  ghost predicate TotalsIn<V(!new)>(
    p: Plan<V>, k: Kernels<V>, feeds: seq<map<nat, V>>, late: bool, b: nat, st: Micro<V>)
    requires Evaluates(p, k, feeds, late) && 0 < b <= |feeds|
  {
    forall t <- p.accumulated :: Produced(p, b - 1, p.bw, t) ==>
      GradSum(p, k, feeds, late, b, t).Some? && Lookup(st.data, t) == GradSum(p, k, feeds, late, b, t)
  }

  lemma BackwardKeeps<V(!new)>(
    p: Plan<V>, k: Kernels<V>, feeds: seq<map<nat, V>>, late: bool, degrees: map<nat, int>, run: Run<V>,
    f: nat, i: nat, last: bool)
    requires LoopInv(p, k, feeds, late, degrees, run, f, i) && i < f
    ensures RunPass(p, k, run, i, p.bw, last).Some?
    ensures LoopInv(p, k, feeds, late, degrees, RunPass(p, k, run, i, p.bw, last).value, f, i + 1)
    ensures last ==> TotalsIn(p, k, feeds, late, i + 1, RunPass(p, k, run, i, p.bw, last).value.micros[i])
  {
    ReadyForBackward(p, k, feeds, late, degrees, run, f, i);
    var ready := Reused(p, run, i);
    SumsAfterBackward(p, k, feeds, late, i, ready.micros[i], ready.acc, last);
    assert p.fw + p.bw == p.fw + p.bw + [];
    RunTopoAgrees(p, k, i, p.fw, p.bw, [], EnvForward(p, k, feeds, late, i).value, ready.micros[i], ready.acc, last);
    var next := RunPass(p, k, run, i, p.bw, last).value;
    forall j | 0 <= j < |feeds| ensures MicroInv(p, k, feeds, late, degrees, next.micros[j], j, f, i + 1) {
      if j != i { OthersKeep(p, k, feeds, late, degrees, run, i, f, i, j); }
    }
  }

  // ---------- the whole list ----------

  function StartRun<V>(feeds: seq<map<nat, V>>, degrees: map<nat, int>): Run<V> {
    Run(seq(|feeds|, i requires 0 <= i < |feeds| => Initial(feeds[i], degrees)), map[])
  }

  lemma StartLength<V>(feeds: seq<map<nat, V>>, degrees: map<nat, int>)
    ensures |StartRun(feeds, degrees).micros| == |feeds|
  {
  }

  lemma StartInv<V(!new)>(p: Plan<V>, k: Kernels<V>, feeds: seq<map<nat, V>>, late: bool, degrees: map<nat, int>)
    requires Evaluates(p, k, feeds, late) && StartsWith(p, degrees)
    ensures LoopInv(p, k, feeds, late, degrees, StartRun(feeds, degrees), 0, 0)
  {
  }

  lemma NextTask<V(!new)>(p: Plan<V>, k: Kernels<V>, start: Run<V>, tasks: seq<Task>, n: nat)
    requires Lawful(k) && n < |tasks| && BatchesBelow(tasks, |start.micros|)
    ensures !tasks[n].Bubble? ==> tasks[n].batch < |start.micros|
    ensures n == 0 ==> RunTasks(p, k, start, tasks, n) == Some(start)
    ensures RunTasks(p, k, start, tasks, n + 1) ==
            (if RunTasks(p, k, start, tasks, n).None? then None
             else RunTask(p, k, RunTasks(p, k, start, tasks, n).value, tasks[n], n + 1 == |tasks|))
  {
  }

  /** Tensors handed over late are there: no forward but the first comes before a backward. */
  ghost predicate InTime(late: bool, tasks: seq<Task>) {
    late ==> forall j | 0 <= j < |tasks| && tasks[j].Forward? && tasks[j].batch > 0 :: Backwards(tasks[..j]) > 0
  }

  lemma {:induction false} RunTasksAgree<V(!new)>(
    p: Plan<V>, k: Kernels<V>, feeds: seq<map<nat, V>>, late: bool, degrees: map<nat, int>, tasks: seq<Task>,
    n: nat)
    requires Evaluates(p, k, feeds, late) && StartsWith(p, degrees) && n <= |tasks|
    requires BatchesBelow(tasks, |feeds|) && InTime(late, tasks) && forall j | 0 <= j < |tasks| :: InTurn(tasks, j)
    ensures var run := RunTasks(p, k, StartRun(feeds, degrees), tasks, n);
            && run.Some?
            && LoopInv(p, k, feeds, late, degrees, run.value, Forwards(tasks[..n]), Backwards(tasks[..n]))
            && (n > 0 && n == |tasks| && tasks[n - 1].Backward? ==>
                  TotalsIn(p, k, feeds, late, tasks[n - 1].batch + 1, run.value.micros[tasks[n - 1].batch]))
  {
    hide *;
    EvaluatesMeans(p, k, feeds, late, degrees);
    if n == 0 {
      StartInv(p, k, feeds, late, degrees);
      NextNone(p, k, StartRun(feeds, degrees), tasks);
    } else {
      RunTasksAgree(p, k, feeds, late, degrees, tasks, n - 1);
      var run := RunTasks(p, k, StartRun(feeds, degrees), tasks, n - 1).value;
      NextTask(p, k, StartRun(feeds, degrees), tasks, n - 1);
      TaskKeeps(p, k, feeds, late, degrees, tasks, n - 1, run);
    }
  }

  lemma NextNone<V(!new)>(p: Plan<V>, k: Kernels<V>, start: Run<V>, tasks: seq<Task>)
    requires Lawful(k) && BatchesBelow(tasks, |start.micros|)
    ensures RunTasks(p, k, start, tasks, 0) == Some(start) && Forwards(tasks[..0]) == Backwards(tasks[..0]) == 0
  {
  }

  lemma TaskKeeps<V(!new)>(
    p: Plan<V>, k: Kernels<V>, feeds: seq<map<nat, V>>, late: bool, degrees: map<nat, int>, tasks: seq<Task>,
    n: nat, run: Run<V>)
    requires n < |tasks| && InTurn(tasks, n) && InTime(late, tasks) && Evaluates(p, k, feeds, late)
    requires LoopInv(p, k, feeds, late, degrees, run, Forwards(tasks[..n]), Backwards(tasks[..n]))
    requires !tasks[n].Bubble? ==> tasks[n].batch < |feeds|
    ensures var next := RunTask(p, k, run, tasks[n], n + 1 == |tasks|);
            && next.Some?
            && LoopInv(p, k, feeds, late, degrees, next.value, Forwards(tasks[..n + 1]), Backwards(tasks[..n + 1]))
            && (n + 1 == |tasks| && tasks[n].Backward? ==>
                  TotalsIn(p, k, feeds, late, tasks[n].batch + 1, next.value.micros[tasks[n].batch]))
  {
    hide *;
    var f, b, last := Forwards(tasks[..n]), Backwards(tasks[..n]), n + 1 == |tasks|;
    TaskCounts(late, tasks, n);
    InvShapes(p, k, feeds, late, degrees, run, f, b);
    TaskIs(p, k, run, tasks[n], last);
    match tasks[n]
    case Bubble(_) =>
    case Forward(i) => ForwardKeeps(p, k, feeds, late, degrees, run, i, b);
    case Backward(i) => BackwardKeeps(p, k, feeds, late, degrees, run, f, i, last);
  }

  /** What being in turn and in time means for the counts of forwards and backwards. */
  lemma TaskCounts(late: bool, tasks: seq<Task>, n: nat)
    requires n < |tasks| && InTurn(tasks, n) && InTime(late, tasks)
    ensures Forwards(tasks[..n + 1]) == Forwards(tasks[..n]) + if tasks[n].Forward? then 1 else 0
    ensures Backwards(tasks[..n + 1]) == Backwards(tasks[..n]) + if tasks[n].Backward? then 1 else 0
    ensures tasks[n].Forward? ==> tasks[n].batch == Forwards(tasks[..n])
    ensures tasks[n].Forward? && late && tasks[n].batch > 0 ==> Backwards(tasks[..n]) > 0
    ensures tasks[n].Backward? ==> tasks[n].batch == Backwards(tasks[..n]) < Forwards(tasks[..n])
  {
    assert tasks[..n + 1][..n] == tasks[..n];
  }

  lemma InvShapes<V(!new)>(
    p: Plan<V>, k: Kernels<V>, feeds: seq<map<nat, V>>, late: bool, degrees: map<nat, int>, run: Run<V>,
    f: nat, b: nat)
    requires LoopInv(p, k, feeds, late, degrees, run, f, b)
    ensures Lawful(k) && |run.micros| == |feeds| && f <= |feeds|
  {
  }

  lemma TaskIs<V(!new)>(p: Plan<V>, k: Kernels<V>, run: Run<V>, task: Task, last: bool)
    requires Lawful(k) && (!task.Bubble? ==> task.batch < |run.micros|)
    ensures RunTask(p, k, run, task, last)
         == match task
            case Bubble(_) => Some(run)
            case Forward(i) => RunPass(p, k, run, i, p.fw, false)
            case Backward(i) => RunPass(p, k, run, i, p.bw, last)
  {
  }

  /** The list a stage works through: forwards only when the plan has no backward pass, else 1F1B. */
  function StageTasks<V>(p: Plan<V>, stages: nat, m: nat, s: nat): seq<Task>
    requires s < stages
  {
    if |p.bw| == 0 then ForwardTasks(m) else FlushTasks(stages, m, s)
  }

  /** What a finished stage promises about its state. */
  ghost predicate Finished<V(!new)>(p: Plan<V>, k: Kernels<V>, feeds: seq<map<nat, V>>, late: bool, run: Run<V>)
    requires Evaluates(p, k, feeds, late) && |feeds| >= 1
  {
    && |run.micros| == |feeds|
    && (forall i | 0 <= i < |feeds| :: EnvAll(p, k, feeds, late, i).Some?
          && Agrees(p, i, p.fw + p.bw, EnvAll(p, k, feeds, late, i).value, run.micros[i]))
    && (forall t <- p.accumulated :: Lookup(run.acc, t) == GradSum(p, k, feeds, late, |feeds|, t))
    && TotalsIn(p, k, feeds, late, |feeds|, run.micros[|feeds| - 1])
  }

  /**
   A whole stage: for every topologically sound plan and every number of stages and
   micro-batches, releasing early never misses an input; afterwards each accumulator holds the
   sum of its gradient over all micro-batches, each counted once; and the data handed to the
   update, that of the last micro-batch, holds those totals.
   */
  lemma StageComputesGradients<V(!new)>(
    p: Plan<V>, k: Kernels<V>, feeds: seq<map<nat, V>>, late: bool, degrees: map<nat, int>, stages: nat, s: nat)
    requires Lawful(k) && Sound(p, feeds, late) && StartsWith(p, degrees) && |feeds| >= 1 && s < stages
    requires InTime(late, StageTasks(p, stages, |feeds|, s))
    ensures var tasks := StageTasks(p, stages, |feeds|, s);
            && BatchesBelow(tasks, |feeds|)
            && var run := RunTasks(p, k, StartRun(feeds, degrees), tasks, |tasks|);
            run.Some? && Evaluates(p, k, feeds, late) && Finished(p, k, feeds, late, run.value)
  {
    hide Sound, Evaluates, Finished, RunTasks, StartRun, StartsWith, Lawful, BatchesBelow, InTime;
    SoundIff(p, k, feeds, late);
    StageBelow(p, stages, |feeds|, s);
    if |p.bw| == 0 {
      ForwardStageFinished(p, k, feeds, late, degrees);
    } else {
      FlushStageFinished(p, k, feeds, late, degrees, stages, s);
    }
  }

  lemma ForwardStageFinished<V(!new)>(
    p: Plan<V>, k: Kernels<V>, feeds: seq<map<nat, V>>, late: bool, degrees: map<nat, int>)
    requires Evaluates(p, k, feeds, late) && StartsWith(p, degrees) && |feeds| >= 1 && |p.bw| == 0
    requires InTime(late, ForwardTasks(|feeds|))
    ensures var tasks := ForwardTasks(|feeds|);
            && BatchesBelow(tasks, |feeds|)
            && var run := RunTasks(p, k, StartRun(feeds, degrees), tasks, |tasks|);
            run.Some? && Finished(p, k, feeds, late, run.value)
  {
    var tasks := ForwardTasks(|feeds|);
    ForwardInOrder(|feeds|);
    assert tasks[..|tasks|] == tasks;
    RunTasksAgree(p, k, feeds, late, degrees, tasks, |tasks|);
    hide LoopInv, Finished, Evaluates, RunTasks;
    ForwardOnlyFinished(p, k, feeds, late, degrees, RunTasks(p, k, StartRun(feeds, degrees), tasks, |tasks|).value);
  }

  lemma FlushStageFinished<V(!new)>(
    p: Plan<V>, k: Kernels<V>, feeds: seq<map<nat, V>>, late: bool, degrees: map<nat, int>, stages: nat, s: nat)
    requires Evaluates(p, k, feeds, late) && StartsWith(p, degrees) && |feeds| >= 1 && s < stages
    requires InTime(late, FlushTasks(stages, |feeds|, s))
    ensures var tasks := FlushTasks(stages, |feeds|, s);
            && BatchesBelow(tasks, |feeds|)
            && var run := RunTasks(p, k, StartRun(feeds, degrees), tasks, |tasks|);
            run.Some? && Finished(p, k, feeds, late, run.value)
  {
    hide *;
    var m, tasks := |feeds|, FlushTasks(stages, |feeds|, s);
    FlushBelow(stages, m, s);
    FlushFacts(stages, m, s);
    EvaluatesMeans(p, k, feeds, late, degrees);
    RunTasksAgree(p, k, feeds, late, degrees, tasks, |tasks|);
    FlushFinished(p, k, feeds, late, degrees, RunTasks(p, k, StartRun(feeds, degrees), tasks, |tasks|).value);
  }

  lemma EvaluatesMeans<V(!new)>(p: Plan<V>, k: Kernels<V>, feeds: seq<map<nat, V>>, late: bool, degrees: map<nat, int>)
    requires Evaluates(p, k, feeds, late)
    ensures Lawful(k) && |StartRun(feeds, degrees).micros| == |feeds|
  {
  }

  lemma FlushFacts(stages: nat, m: nat, s: nat)
    requires s < stages && m >= 1
    ensures var tasks := FlushTasks(stages, m, s);
            && (forall j | 0 <= j < |tasks| :: InTurn(tasks, j))
            && |tasks| > 0 && tasks[..|tasks|] == tasks && tasks[|tasks| - 1] == Backward(m - 1)
            && Forwards(tasks) == m && Backwards(tasks) == m
  {
    hide FlushTasks, InTurn, Forwards, Backwards;
    FlushInOrder(stages, m, s);
    FlushEndsWithLastBackward(stages, m, s);
  }

  lemma FlushFinished<V(!new)>(
    p: Plan<V>, k: Kernels<V>, feeds: seq<map<nat, V>>, late: bool, degrees: map<nat, int>, run: Run<V>)
    requires LoopInv(p, k, feeds, late, degrees, run, |feeds|, |feeds|) && |feeds| >= 1
    requires TotalsIn(p, k, feeds, late, |feeds|, run.micros[|feeds| - 1])
    ensures Finished(p, k, feeds, late, run)
  {
    forall i | 0 <= i < |feeds| ensures EnvAll(p, k, feeds, late, i).Some?
                                ensures Agrees(p, i, p.fw + p.bw, EnvAll(p, k, feeds, late, i).value, run.micros[i]) {
      assert MicroInv(p, k, feeds, late, degrees, run.micros[i], i, |feeds|, |feeds|);
    }
  }

  lemma ForwardOnlyFinished<V(!new)>(
    p: Plan<V>, k: Kernels<V>, feeds: seq<map<nat, V>>, late: bool, degrees: map<nat, int>, run: Run<V>)
    requires LoopInv(p, k, feeds, late, degrees, run, |feeds|, 0) && |feeds| >= 1 && |p.bw| == 0
    ensures Finished(p, k, feeds, late, run)
  {
    assert p.fw + p.bw == p.fw;
    forall i | 0 <= i < |feeds| ensures EnvAll(p, k, feeds, late, i).Some?
                                ensures Agrees(p, i, p.fw + p.bw, EnvAll(p, k, feeds, late, i).value, run.micros[i]) {
      assert MicroInv(p, k, feeds, late, degrees, run.micros[i], i, |feeds|, 0);
      assert EnvAll(p, k, feeds, late, i).Some?;
    }
    forall t ensures GradSum(p, k, feeds, late, |feeds|, t) == None {
      NothingSummed(p, k, feeds, late, |feeds|, t);
    }
  }

  lemma {:induction false} NothingSummed<V(!new)>(
    p: Plan<V>, k: Kernels<V>, feeds: seq<map<nat, V>>, late: bool, b: nat, t: nat)
    requires Evaluates(p, k, feeds, late) && b <= |feeds| && |p.bw| == 0
    ensures GradSum(p, k, feeds, late, b, t) == None
  {
    if b > 0 { NothingSummed(p, k, feeds, late, b - 1, t); }
  }

  lemma StageBelow<V>(p: Plan<V>, stages: nat, m: nat, s: nat)
    requires s < stages
    ensures BatchesBelow(StageTasks(p, stages, m, s), m)
  {
    FlushBelow(stages, m, s);
  }

  lemma FlushBelow(stages: nat, m: nat, s: nat)
    requires s < stages
    ensures BatchesBelow(FlushTasks(stages, m, s), m)
  {
  }

  /**
   What agreement means at the end: fetched tensors, and everything a deferred operation reads, are
   there unchanged.
   */
  lemma KeptForLater<V>(p: Plan<V>, i: nat, env: map<nat, V>, st: Micro<V>, op: Op, t: nat)
    requires Agrees(p, i, p.fw + p.bw, env, st) && t in env && t !in p.accumulated
    requires t in p.fetched || (op in p.fw + p.bw && Passed(p, i, op) && t in op.ins)
    ensures t in st.data && st.data[t] == env[t]
  {
    if t !in p.fetched {
      var all := p.fw + p.bw;
      var j := IndexOf(all, op);
      assert all == all[..j] + [op] + all[j + 1..];
      UnusedLeft(p, i, all[..j], op, all[j + 1..], t);
    }
  }

  lemma UnusedLeft<V>(p: Plan<V>, mb: nat, a: seq<Op>, op: Op, b: seq<Op>, t: nat)
    requires Passed(p, mb, op) && t in op.ins
    ensures Used(p, mb, a + [op] + b, t) < Uses(a + [op] + b, t)
  {
    UsesAppend(a + [op], b, t);
    UsedAppend(p, mb, a + [op], b, t);
    assert (a + [op])[..|a|] == a && (a + [op])[|a|] == op;
    UsedAtMostUses(p, mb, a, t);
    UsedAtMostUses(p, mb, b, t);
  }

  lemma {:induction false} UsedAppend<V>(p: Plan<V>, mb: nat, a: seq<Op>, b: seq<Op>, t: nat)
    ensures Used(p, mb, a + b, t) == Used(p, mb, a, t) + Used(p, mb, b, t)
  {
    if b == [] {
      assert a + b == a;
    } else {
      assert (a + b)[..|a + b| - 1] == a + b[..|b| - 1];
      UsedAppend(p, mb, a, b[..|b| - 1], t);
    }
  }
}
