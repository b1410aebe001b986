/**
 Gradient accumulation over the micro-batches of a stage's task list.
 */
module GradientAccumulation {
  import opened Collections
  import opened Executor
  import opened PipelineSchedule

  // ---------- what one pass adds ----------

  /** The accumulator of `t` after `v` has been added once, or before anything was added. */
  function Added<V>(k: Kernels<V>, sum: Option<V>, v: V): V {
    k.add(if sum.Some? then sum.value else k.zerosLike(v), v)
  }

  function Lookup<V>(m: map<nat, V>, t: nat): Option<V> {
    if t in m then Some(m[t]) else None
  }

  lemma {:induction false} AccAllAt<V>(
    p: Plan<V>, k: Kernels<V>, env: map<nat, V>, acc: map<nat, V>, ts: seq<nat>, vs: seq<V>, t: nat)
    requires |ts| == |vs| && NoDup(ts)
    ensures Lookup(AccAll(p, k, acc, ts, vs), t) ==
            if t in ts && t in p.accumulated then Some(Added(k, Lookup(acc, t), Bind(env, ts, vs)[t]))
            else Lookup(acc, t)
  {
    if ts != [] {
      var n := |ts| - 1;
      assert ts == ts[..n] + [ts[n]];
      AccAllAt(p, k, env, acc, ts[..n], vs[..n], t);
    }
  }

  lemma {:induction false} NaiveKeeps<V(!new)>(
    p: Plan<V>, k: Kernels<V>, mb: nat, ops: seq<Op>, env: map<nat, V>, t: nat)
    requires Lawful(k) && NaiveTopo(p, k, mb, ops, env).Some?
    ensures t in env ==> t in NaiveTopo(p, k, mb, ops, env).value
    ensures t in env && t !in Outs(ops) ==> NaiveTopo(p, k, mb, ops, env).value[t] == env[t]
    ensures t in NaiveTopo(p, k, mb, ops, env).value ==> t in env || t in Outs(ops)
    ensures Produced(p, mb, ops, t) ==> t in NaiveTopo(p, k, mb, ops, env).value && t in Outs(ops)
  {
    if ops != [] {
      var n := |ops| - 1;
      NaiveKeeps(p, k, mb, ops[..n], env, t);
      ProducedLast(p, mb, ops, t);
    }
  }

  lemma ProducedLast<V>(p: Plan<V>, mb: nat, ops: seq<Op>, t: nat)
    requires ops != []
    ensures Produced(p, mb, ops, t)
       <==> Produced(p, mb, ops[..|ops| - 1], t) || (Runs(p, mb, ops[|ops| - 1]) && t in ops[|ops| - 1].outs)
  {
    var n := |ops| - 1;
    if Produced(p, mb, ops, t) {
      var i :| 0 <= i < |ops| && Runs(p, mb, ops[i]) && t in ops[i].outs;
      if i < n { assert ops[..n][i] == ops[i]; }
    }
    if Produced(p, mb, ops[..n], t) {
      var i :| 0 <= i < n && Runs(p, mb, ops[..n][i]) && t in ops[..n][i].outs;
      assert ops[i] == ops[..n][i];
    }
  }

  /** What the accumulators and, on the last task, the data hold after a pass. */
  ghost predicate Accumulated<V>(
    p: Plan<V>, k: Kernels<V>, mb: nat, ops: seq<Op>, env: map<nat, V>, before: map<nat, V>, st: Micro<V>,
    acc: map<nat, V>, finished: bool, t: nat)
  {
    if Produced(p, mb, ops, t) && t in p.accumulated && t in env then
      Lookup(acc, t) == Some(Added(k, Lookup(before, t), env[t]))
      && (finished ==> Lookup(acc, t).Some? && Lookup(st.data, t) == Lookup(acc, t))
    else Lookup(acc, t) == Lookup(before, t)
  }

  lemma {:induction false} TakeAllLeaves<V>(p: Plan<V>, mb: nat, st: Micro<V>, ts: seq<nat>, t: nat)
    requires TakeAll(p, mb, st, ts).Some? && (t !in ts || t in p.preserved)
    ensures t in st.data <==> t in TakeAll(p, mb, st, ts).value.1.data
    ensures t in st.data ==> TakeAll(p, mb, st, ts).value.1.data[t] == st.data[t]
  {
    if ts != [] {
      var n := |ts| - 1;
      assert ts == ts[..n] + [ts[n]];
      TakeAllLeaves(p, mb, st, ts[..n], t);
    }
  }

  lemma {:induction false} PutAllStores<V>(
    p: Plan<V>, k: Kernels<V>, st: Micro<V>, acc: map<nat, V>, ts: seq<nat>, vs: seq<V>, finished: bool, t: nat)
    requires |ts| == |vs| && t in p.accumulated
    requires finished && t !in ts ==> Lookup(acc, t).Some? && Lookup(st.data, t) == Lookup(acc, t)
    ensures var (next, acc') := PutAll(p, k, st, acc, ts, vs, finished);
            finished ==> Lookup(acc', t).Some? && Lookup(next.data, t) == Lookup(acc', t)
  {
    if ts != [] && finished {
      var n := |ts| - 1;
      assert ts == ts[..n] + [ts[n]];
      if ts[n] != t {
        PutAllStores(p, k, st, acc, ts[..n], vs[..n], finished, t);
      }
    }
  }

  /**
   One pass adds each accumulated tensor it produces exactly once, and on the last task leaves
   the total in the data of its micro-batch.
   */
  lemma {:induction false} PassAccumulates<V(!new)>(
    p: Plan<V>, k: Kernels<V>, mb: nat, done: seq<Op>, ops: seq<Op>, rest: seq<Op>, env: map<nat, V>,
    st: Micro<V>, acc: map<nat, V>, finished: bool, t: nat)
    requires Lawful(k) && WellFormed(p) && p.fw + p.bw == done + ops + rest
    requires Agrees(p, mb, done, env, st) && NaiveTopo(p, k, mb, ops, env).Some?
    ensures RunTopo(p, k, mb, ops, finished, st, acc).Some?
    ensures var (st', acc') := RunTopo(p, k, mb, ops, finished, st, acc).value;
            Accumulated(p, k, mb, ops, NaiveTopo(p, k, mb, ops, env).value, acc, st', acc', finished, t)
    decreases |ops|
  {
    if ops != [] {
      var n := |ops| - 1;
      assert done + ops[..n] + ([ops[n]] + rest) == done + ops + rest;
      assert done + ops[..n] + [ops[n]] + rest == done + ops + rest;
      assert ops == ops[..n] + [ops[n]];
      hide Agrees, Lawful, WellFormed, Accumulated, RunOp, NaiveOp, Produced;
      RunTopoAgrees(p, k, mb, done, ops[..n], [ops[n]] + rest, env, st, acc, finished);
      PassAccumulates(p, k, mb, done, ops[..n], [ops[n]] + rest, env, st, acc, finished, t);
      var (st', acc') := RunTopo(p, k, mb, ops[..n], finished, st, acc).value;
      var env' := NaiveTopo(p, k, mb, ops[..n], env).value;
      NaiveKeeps(p, k, mb, ops[..n], env, t);
      OpAccumulates(p, k, mb, done, ops[..n], ops[n], rest, env', st', acc', acc, finished, t);
    }
  }

  lemma OpAccumulates<V(!new)>(
    p: Plan<V>, k: Kernels<V>, mb: nat, done: seq<Op>, ops: seq<Op>, op: Op, rest: seq<Op>, env: map<nat, V>,
    st: Micro<V>, acc: map<nat, V>, before: map<nat, V>, finished: bool, t: nat)
    requires Lawful(k) && WellFormed(p) && p.fw + p.bw == (done + ops) + [op] + rest
    requires Agrees(p, mb, done + ops, env, st) && NaiveOp(p, k, mb, op, env).Some?
    requires Accumulated(p, k, mb, ops, env, before, st, acc, finished, t)
    requires Produced(p, mb, ops, t) ==> t in env && t in Outs(ops)
    ensures RunOp(p, k, mb, op, finished, st, acc).Some?
    ensures var (st', acc') := RunOp(p, k, mb, op, finished, st, acc).value;
            Accumulated(p, k, mb, ops + [op], NaiveOp(p, k, mb, op, env).value, before, st', acc', finished, t)
  {
    RunOpAgrees(p, k, mb, done + ops, op, rest, env, st, acc, finished);
    ProducedLast(p, mb, ops + [op], t);
    assert (ops + [op])[..|ops|] == ops;
    if Runs(p, mb, op) {
      var xs := Look(p, env, op.ins).value;
      var vs := k.compute(op, mb, xs);
      OutsDistinct(p, done + ops, op, rest);
      AccAllAt(p, k, env, acc, op.outs, vs, t);
      if t in op.outs {
        OutsAppend(done, ops);
        OutsNew(p, done + ops, op, rest, t);
      }
      if t in p.accumulated {
        PlainInputs(p, mb, done + ops, op, rest);
        TakeAllLeaves(p, mb, st, op.ins, t);
        var next := TakeAll(p, mb, st, op.ins).value.1;
        if Produced(p, mb, ops, t) || t in op.outs {
          PutAllStores(p, k, next, acc, op.outs, k.compute(op, mb, TakeAll(p, mb, st, op.ins).value.0), finished, t);
        }
      }
    }
  }

  lemma OutsDistinct<V>(p: Plan<V>, done: seq<Op>, op: Op, rest: seq<Op>)
    requires NoDup(Outs(p.fw + p.bw)) && p.fw + p.bw == done + [op] + rest
    ensures NoDup(op.outs)
  {
    if op.outs != [] { OutsNew(p, done, op, rest, op.outs[0]); }
  }
}
