/** The values a finished stage holds, as the one solution of its dataflow equations. */
module StageValues {
  import opened Collections
  import opened Executor
  import opened GradientAccumulation
  import opened PipelineSchedule
  import opened ReadyInputs
  import opened CrucialRuns

  /**
   The inputs of operation `j` of `ops`: preserved, made by an earlier operation, or given at the start. `env` has
   what the operations make.
   */
  ghost predicate InputsOf<V(!new)>(
    p: Plan<V>, mb: nat, ops: seq<Op>, start: map<nat, V>, env: map<nat, V>, j: nat, xs: seq<V>)
    requires j < |ops|
  {
    && |xs| == |ops[j].ins|
    && forall q | 0 <= q < |xs| :: InputIs(p, mb, ops, start, env, j, ops[j].ins[q], xs[q])
  }

  ghost predicate InputIs<V(!new)>(
    p: Plan<V>, mb: nat, ops: seq<Op>, start: map<nat, V>, env: map<nat, V>, j: nat, t: nat, x: V)
    requires j < |ops|
  {
    if t in p.preserved then x == p.preserved[t]
    else if MadeBefore(p, mb, ops, j, t) then t in env && x == env[t]
    else t in start && x == start[t]
  }

  /** The equation of operation `j`: its outputs are what its kernel computes from its inputs. */
  ghost predicate Equation<V(!new)>(
    p: Plan<V>, k: Kernels<V>, mb: nat, ops: seq<Op>, start: map<nat, V>, env: map<nat, V>, j: nat, xs: seq<V>)
    requires Lawful(k) && j < |ops|
  {
    && InputsOf(p, mb, ops, start, env, j, xs)
    && forall q | 0 <= q < |ops[j].outs| :: ops[j].outs[q] in env && env[ops[j].outs[q]] == k.compute(ops[j], mb, xs)[q]
  }

  /** `env` has what is given and what is made, each operation that is not passed over obeying its equation. */
  ghost predicate Solves<V(!new)>(
    p: Plan<V>, k: Kernels<V>, mb: nat, ops: seq<Op>, start: map<nat, V>, env: map<nat, V>)
    requires Lawful(k)
  {
    && (forall t :: t in env <==> t in start || MadeBefore(p, mb, ops, |ops|, t))
    && (forall t <- start :: !MadeBefore(p, mb, ops, |ops|, t) ==> env[t] == start[t])
    && (forall j | 0 <= j < |ops| && !Passed(p, mb, ops[j]) :: exists xs :: Equation(p, k, mb, ops, start, env, j, xs))
  }

  // ---------- the interpreter that never erases solves the equations ----------

  lemma {:induction false} NaiveSolves<V(!new)>(
    p: Plan<V>, k: Kernels<V>, mb: nat, ops: seq<Op>, start: map<nat, V>)
    requires Lawful(k) && NoDup(Outs(ops)) && NaiveTopo(p, k, mb, ops, start).Some?
    ensures Solves(p, k, mb, ops, start, NaiveTopo(p, k, mb, ops, start).value)
  {
    if ops == [] {
      return;
    }
    hide *;
    var n := |ops| - 1;
    OutsInit(ops, n);
    NaiveLast(p, k, mb, ops, start);
    NaiveSolves(p, k, mb, ops[..n], start);
    var env := NaiveTopo(p, k, mb, ops[..n], start).value;
    var xs := LastStep(p, k, mb, ops[n], env);
    SolvesNext(p, k, mb, ops, n, start, env, NaiveOp(p, k, mb, ops[n], env).value, xs);
  }

  /** The outputs of operation `n` are new. */
  ghost predicate NewOuts(ops: seq<Op>, n: nat)
    requires n < |ops|
  {
    forall t <- ops[n].outs :: t !in Outs(ops[..n])
  }

  lemma OutsInit(ops: seq<Op>, n: nat)
    requires n == |ops| - 1 && NoDup(Outs(ops))
    ensures NoDup(Outs(ops[..n])) && NoDup(ops[n].outs) && NewOuts(ops, n)
  {
    assert Outs(ops) == Outs(ops[..n]) + ops[n].outs;
    hide Outs;
    NoDupParts(Outs(ops[..n]), ops[n].outs);
  }

  lemma NoDupParts(a: seq<nat>, b: seq<nat>)
    requires NoDup(a + b)
    ensures NoDup(a) && NoDup(b) && forall t <- b :: t !in a
  {
    var s := a + b;
    forall i, j | 0 <= i < j < |a| ensures a[i] != a[j] {
      assert s[i] != s[j];
    }
    forall i, j | 0 <= i < j < |b| ensures b[i] != b[j] {
      assert s[|a| + i] != s[|a| + j];
    }
    forall i, j | 0 <= i < |a| && 0 <= j < |b| ensures a[i] != b[j] {
      assert s[i] != s[|a| + j];
    }
  }

  /** What one operation does to the values, told from the plan's sets. */
  ghost predicate Stepped<V(!new)>(
    p: Plan<V>, k: Kernels<V>, mb: nat, op: Op, env: map<nat, V>, after: map<nat, V>, xs: seq<V>)
    requires Lawful(k)
  {
    if Passed(p, mb, op) then after == env else
      && Reads(p, env, op.ins, xs) && |k.compute(op, mb, xs)| == |op.outs|
      && (forall q | 0 <= q < |op.outs| :: op.outs[q] in after && after[op.outs[q]] == k.compute(op, mb, xs)[q])
      && (forall t: nat | t !in op.outs :: (t in after <==> t in env) && (t in env ==> after[t] == env[t]))
  }

  lemma LastStep<V(!new)>(p: Plan<V>, k: Kernels<V>, mb: nat, op: Op, env: map<nat, V>) returns (xs: seq<V>)
    requires Lawful(k) && NoDup(op.outs) && NaiveOp(p, k, mb, op, env).Some?
    ensures Stepped(p, k, mb, op, env, NaiveOp(p, k, mb, op, env).value, xs)
  {
    hide Lawful, Reads, Look, Bind;
    xs := [];
    RunsUnlessPassed(p, mb, op);
    if !Passed(p, mb, op) {
      xs := Look(p, env, op.ins).value;
      LooksAre(p, env, op.ins, xs);
      Performed(p, k, mb, op, env);
    }
  }

  lemma SolvesNext<V(!new)>(p: Plan<V>, k: Kernels<V>, mb: nat, ops: seq<Op>, n: nat, start: map<nat, V>,
                            env: map<nat, V>, after: map<nat, V>, xs: seq<V>)
    requires Lawful(k) && n == |ops| - 1 && NewOuts(ops, n) && Solves(p, k, mb, ops[..n], start, env)
    requires Stepped(p, k, mb, ops[n], env, after, xs)
    ensures Solves(p, k, mb, ops, start, after)
  {
    hide *;
    NextKeys(p, k, mb, ops, n, start, env, after, xs);
    forall t | t in Outs(ops[..n]) ensures (t in after <==> t in env) && (t in env ==> after[t] == env[t]) {
      EarlierStays(p, k, mb, ops, n, env, after, xs, t);
    }
    SolvesIs(p, k, mb, ops[..n], start, env);
    forall j | 0 <= j < |ops| && !Passed(p, mb, ops[j])
      ensures exists ys :: Equation(p, k, mb, ops, start, after, j, ys)
    {
      if j < n {
        assert ops[..n][j] == ops[j];
        var ys :| Equation(p, k, mb, ops[..n], start, env, j, ys);
        EarlierEquation(p, k, mb, ops, n, start, env, after, j, ys);
      } else {
        LastEquation(p, k, mb, ops, n, start, env, after, xs);
      }
    }
    SolvesIs(p, k, mb, ops, start, after);
  }

  lemma SolvesIs<V(!new)>(p: Plan<V>, k: Kernels<V>, mb: nat, ops: seq<Op>, start: map<nat, V>, env: map<nat, V>)
    requires Lawful(k)
    ensures Solves(p, k, mb, ops, start, env) <==>
            && (forall t :: t in env <==> t in start || MadeBefore(p, mb, ops, |ops|, t))
            && (forall t <- start :: !MadeBefore(p, mb, ops, |ops|, t) ==> env[t] == start[t])
            && (forall j | 0 <= j < |ops| && !Passed(p, mb, ops[j]) ::
                  exists xs :: Equation(p, k, mb, ops, start, env, j, xs))
  {
    hide Lawful, MadeBefore, Passed, Equation;
  }

  lemma NextKeys<V(!new)>(p: Plan<V>, k: Kernels<V>, mb: nat, ops: seq<Op>, n: nat, start: map<nat, V>,
                          env: map<nat, V>, after: map<nat, V>, xs: seq<V>)
    requires Lawful(k) && n == |ops| - 1 && Solves(p, k, mb, ops[..n], start, env)
    requires Stepped(p, k, mb, ops[n], env, after, xs)
    ensures forall t :: t in after <==> t in start || MadeBefore(p, mb, ops, |ops|, t)
    ensures forall t <- start :: !MadeBefore(p, mb, ops, |ops|, t) ==> after[t] == start[t]
  {
    hide Lawful, MadeBefore, Passed, Equation, Reads;
    forall t: nat ensures t in after <==> t in start || MadeBefore(p, mb, ops, |ops|, t)
                  ensures t in start && !MadeBefore(p, mb, ops, |ops|, t) ==> after[t] == start[t]
    {
      BeforeInPrefix(p, mb, ops, n, n, t);
      BeforeNext(p, mb, ops, n, t);
    }
  }

  lemma EarlierStays<V(!new)>(p: Plan<V>, k: Kernels<V>, mb: nat, ops: seq<Op>, n: nat, env: map<nat, V>,
                              after: map<nat, V>, xs: seq<V>, t: nat)
    requires Lawful(k) && n < |ops| && t in Outs(ops[..n]) && NewOuts(ops, n)
    requires Stepped(p, k, mb, ops[n], env, after, xs)
    ensures (t in after <==> t in env) && (t in env ==> after[t] == env[t])
  {
    hide Lawful, Passed, Reads, Outs;
  }

  /** An earlier equation still holds: nothing made before is made again. */
  lemma EarlierEquation<V(!new)>(p: Plan<V>, k: Kernels<V>, mb: nat, ops: seq<Op>, n: nat, start: map<nat, V>,
                                 env: map<nat, V>, after: map<nat, V>, j: nat, xs: seq<V>)
    requires Lawful(k) && j < n <= |ops| && Equation(p, k, mb, ops[..n], start, env, j, xs)
    requires forall t <- Outs(ops[..n]) :: (t in after <==> t in env) && (t in env ==> after[t] == env[t])
    ensures Equation(p, k, mb, ops, start, after, j, xs)
  {
    hide Lawful, MadeBefore, Outs;
    assert ops[..n][j] == ops[j] && ops[j] in ops[..n];
    forall t ensures MadeBefore(p, mb, ops[..n], j, t) <==> MadeBefore(p, mb, ops, j, t)
             ensures MadeBefore(p, mb, ops, j, t) ==> t in Outs(ops[..n])
    {
      BeforeInPrefix(p, mb, ops, n, j, t);
      if MadeBefore(p, mb, ops[..n], j, t) { MadeBeforeIsOut(p, mb, ops[..n], j, t); }
    }
    forall t | t in ops[j].outs ensures t in Outs(ops[..n]) { InOuts(ops[..n], ops[j], t); }
  }

  lemma MadeBeforeIsOut<V(!new)>(p: Plan<V>, mb: nat, ops: seq<Op>, j: nat, t: nat)
    requires j <= |ops| && MadeBefore(p, mb, ops, j, t)
    ensures t in Outs(ops)
  {
    var i :| 0 <= i < j && !Passed(p, mb, ops[i]) && t in ops[i].outs;
    InOuts(ops, ops[i], t);
  }

  lemma LastEquation<V(!new)>(p: Plan<V>, k: Kernels<V>, mb: nat, ops: seq<Op>, n: nat, start: map<nat, V>,
                              env: map<nat, V>, after: map<nat, V>, xs: seq<V>)
    requires Lawful(k) && n == |ops| - 1 && !Passed(p, mb, ops[n]) && NewOuts(ops, n)
    requires Solves(p, k, mb, ops[..n], start, env) && Stepped(p, k, mb, ops[n], env, after, xs)
    ensures Equation(p, k, mb, ops, start, after, n, xs)
  {
    hide Lawful, MadeBefore, Outs, Passed, Equation;
    var op := ops[n];
    forall q | 0 <= q < |xs| ensures InputIs(p, mb, ops, start, after, n, op.ins[q], xs[q]) {
      var t := op.ins[q];
      BeforeInPrefix(p, mb, ops, n, n, t);
      if MadeBefore(p, mb, ops[..n], n, t) { MadeBeforeIsOut(p, mb, ops[..n], n, t); }
    }
    assert InputsOf(p, mb, ops, start, after, n, xs);
    EquationIs(p, k, mb, ops, start, after, n, xs);
  }

  lemma EquationIs<V(!new)>(
    p: Plan<V>, k: Kernels<V>, mb: nat, ops: seq<Op>, start: map<nat, V>, env: map<nat, V>, j: nat, xs: seq<V>)
    requires Lawful(k) && j < |ops| && InputsOf(p, mb, ops, start, env, j, xs)
    ensures |k.compute(ops[j], mb, xs)| == |ops[j].outs|
    ensures Equation(p, k, mb, ops, start, env, j, xs) <==>
            forall q | 0 <= q < |ops[j].outs| ::
              ops[j].outs[q] in env && env[ops[j].outs[q]] == k.compute(ops[j], mb, xs)[q]
  {
  }

  // ---------- there is one solution ----------

  lemma SolutionMakes<V(!new)>(p: Plan<V>, k: Kernels<V>, mb: nat, ops: seq<Op>, start: map<nat, V>,
                               one: map<nat, V>, two: map<nat, V>, j: nat)
    requires Lawful(k) && j < |ops| && !Passed(p, mb, ops[j])
    requires Solves(p, k, mb, ops, start, one) && Solves(p, k, mb, ops, start, two)
    requires forall t | MadeBefore(p, mb, ops, j, t) :: t in one && t in two && one[t] == two[t]
    ensures forall t <- ops[j].outs :: t in one && t in two && one[t] == two[t]
  {
    hide Passed, MadeBefore, Equation;
    var xs :| Equation(p, k, mb, ops, start, one, j, xs);
    var ys :| Equation(p, k, mb, ops, start, two, j, ys);
    hide Solves;
    SameInputs(p, k, mb, ops, start, one, two, j, xs, ys);
    EquationIs(p, k, mb, ops, start, one, j, xs);
    EquationIs(p, k, mb, ops, start, two, j, ys);
    hide Lawful, InputsOf;
    forall t | t in ops[j].outs ensures t in one && t in two && one[t] == two[t] {
      var q := IndexOf(ops[j].outs, t);
    }
  }

  lemma SameInputs<V(!new)>(p: Plan<V>, k: Kernels<V>, mb: nat, ops: seq<Op>, start: map<nat, V>, one: map<nat, V>,
                            two: map<nat, V>, j: nat, xs: seq<V>, ys: seq<V>)
    requires Lawful(k) && j < |ops|
    requires Equation(p, k, mb, ops, start, one, j, xs) && Equation(p, k, mb, ops, start, two, j, ys)
    requires forall t | MadeBefore(p, mb, ops, j, t) :: t in one && t in two && one[t] == two[t]
    ensures xs == ys && InputsOf(p, mb, ops, start, one, j, xs) && InputsOf(p, mb, ops, start, two, j, ys)
  {
    hide MadeBefore, Lawful;
    forall q | 0 <= q < |xs| ensures xs[q] == ys[q] {
      assert InputIs(p, mb, ops, start, one, j, ops[j].ins[q], xs[q]);
      assert InputIs(p, mb, ops, start, two, j, ops[j].ins[q], ys[q]);
    }
  }

  lemma {:induction false} SameMade<V(!new)>(p: Plan<V>, k: Kernels<V>, mb: nat, ops: seq<Op>, start: map<nat, V>,
                                             one: map<nat, V>, two: map<nat, V>, j: nat)
    requires Lawful(k) && j <= |ops|
    requires Solves(p, k, mb, ops, start, one) && Solves(p, k, mb, ops, start, two)
    ensures forall t | MadeBefore(p, mb, ops, j, t) :: t in one && t in two && one[t] == two[t]
  {
    hide Solves, Lawful, Passed;
    if j > 0 {
      SameMade(p, k, mb, ops, start, one, two, j - 1);
      if !Passed(p, mb, ops[j - 1]) {
        SolutionMakes(p, k, mb, ops, start, one, two, j - 1);
      }
      hide MadeBefore;
      forall t | MadeBefore(p, mb, ops, j, t) ensures t in one && t in two && one[t] == two[t] {
        BeforeNext(p, mb, ops, j - 1, t);
      }
    }
  }

  /** The equations determine every value. */
  lemma SolvesOnce<V(!new)>(p: Plan<V>, k: Kernels<V>, mb: nat, ops: seq<Op>, start: map<nat, V>,
                            one: map<nat, V>, two: map<nat, V>)
    requires Lawful(k) && Solves(p, k, mb, ops, start, one) && Solves(p, k, mb, ops, start, two)
    ensures one == two
  {
    hide Lawful, MadeBefore, Passed, Equation;
    SameMade(p, k, mb, ops, start, one, two, |ops|);
    assert one.Keys == two.Keys;
  }

  // ---------- all micro-batches of a stage ----------

  /**
   What a micro-batch starts with: its feed and, above micro-batch 0, the transferred tensors that micro-batch 0
   makes in its forward, or (`late`) in either pass.
   */
  function Given<V>(p: Plan<V>, feeds: seq<map<nat, V>>, late: bool, zero: map<nat, V>, i: nat): map<nat, V>
    requires i < |feeds|
  {
    if i == 0 then feeds[0] else feeds[i] + HandedBy(p, late, zero)
  }

  function HandedBy<V>(p: Plan<V>, late: bool, zero: map<nat, V>): map<nat, V> {
    map t | t in zero && t in p.transfers && (late || t in Outs(p.fw)) :: zero[t]
  }

  /** One valuation for each micro-batch, each obeying the equations of both passes. */
  ghost predicate Solution<V(!new)>(
    p: Plan<V>, k: Kernels<V>, feeds: seq<map<nat, V>>, late: bool, envs: seq<map<nat, V>>)
    requires Lawful(k)
  {
    && |envs| == |feeds|
    && forall i | 0 <= i < |feeds| ::
         Solves(p, k, i, p.fw + p.bw, Given(p, feeds, late, envs[0], i), envs[i])
  }

  lemma SolutionUnique<V(!new)>(
    p: Plan<V>, k: Kernels<V>, feeds: seq<map<nat, V>>, late: bool, one: seq<map<nat, V>>, two: seq<map<nat, V>>)
    requires Lawful(k) && Solution(p, k, feeds, late, one) && Solution(p, k, feeds, late, two)
    ensures one == two
  {
    hide Solves, Lawful;
    forall i | 0 <= i < |feeds| ensures one[i] == two[i] {
      SolvesOnce(p, k, 0, p.fw + p.bw, feeds[0], one[0], two[0]);
      SolvesOnce(p, k, i, p.fw + p.bw, Given(p, feeds, late, one[0], i), one[i], two[i]);
    }
  }

  lemma {:induction false} NaiveAppend<V(!new)>(
    p: Plan<V>, k: Kernels<V>, mb: nat, a: seq<Op>, b: seq<Op>, env: map<nat, V>)
    requires Lawful(k) && NaiveTopo(p, k, mb, a, env).Some?
    ensures NaiveTopo(p, k, mb, a + b, env) == NaiveTopo(p, k, mb, b, NaiveTopo(p, k, mb, a, env).value)
  {
    hide NaiveOp, Lawful;
    if b == [] {
      assert a + b == a;
    } else {
      assert (a + b)[..|a + b| - 1] == a + b[..|b| - 1];
      NaiveAppend(p, k, mb, a, b[..|b| - 1], env);
    }
  }

  /** What micro-batch 0 hands over is what it ends with. */
  lemma HandedIsGiven<V(!new)>(p: Plan<V>, k: Kernels<V>, feeds: seq<map<nat, V>>, late: bool, i: nat)
    requires Evaluates(p, k, feeds, late) && i < |feeds|
    ensures EnvAll(p, k, feeds, late, 0).Some?
    ensures EnvStart(p, k, feeds, late, i) == Some(Given(p, feeds, late, EnvAll(p, k, feeds, late, 0).value, i))
  {
    hide NaiveTopo, Outs, Lawful, WellFormed;
    assert EnvAll(p, k, feeds, late, 0).Some? && EnvAll(p, k, feeds, late, i).Some?;
    if i > 0 {
      var forward := NaiveTopo(p, k, 0, p.fw, feeds[0]).value;
      var zero := NaiveTopo(p, k, 0, p.bw, forward).value;
      forall t | !late && t in p.transfers
        ensures t in forward <==> t in zero && t in Outs(p.fw)
        ensures t in forward ==> zero[t] == forward[t]
      {
        KeptByBackward(p, k, feeds[0], t);
      }
      hide Transferred, HandedBy;
      SameHanded(p, late, forward, zero);
    }
  }

  lemma SameHanded<V(!new)>(p: Plan<V>, late: bool, forward: map<nat, V>, zero: map<nat, V>)
    requires forall t | !late && t in p.transfers ::
               (t in forward <==> t in zero && t in Outs(p.fw)) && (t in forward ==> zero[t] == forward[t])
    ensures Transferred(p, if late then zero else forward) == HandedBy(p, late, zero)
  {
    hide Outs;
    var one, two := Transferred(p, if late then zero else forward), HandedBy(p, late, zero);
    assert forall t :: t in one <==> t in two;
    assert one.Keys == two.Keys;
  }

  lemma KeptByBackward<V(!new)>(p: Plan<V>, k: Kernels<V>, feed: map<nat, V>, t: nat)
    requires Lawful(k) && WellFormed(p) && t in p.transfers && (forall u <- feed :: u in p.fed)
    requires NaiveTopo(p, k, 0, p.fw, feed).Some?
    requires NaiveTopo(p, k, 0, p.bw, NaiveTopo(p, k, 0, p.fw, feed).value).Some?
    ensures var handed := NaiveTopo(p, k, 0, p.fw, feed).value;
            var zero := NaiveTopo(p, k, 0, p.bw, handed).value;
            (t in handed <==> t in zero && t in Outs(p.fw)) && (t in handed ==> zero[t] == handed[t])
  {
    hide NaiveTopo, Outs, Lawful, ReadsPlain;
    NaiveKeeps(p, k, 0, p.fw, feed, t);
    NaiveKeeps(p, k, 0, p.bw, NaiveTopo(p, k, 0, p.fw, feed).value, t);
    OutsAppend(p.fw, p.bw);
    NoDupParts(Outs(p.fw), Outs(p.bw));
  }

  /** Evaluating every micro-batch solves the equations of the stage. */
  lemma EvaluatesSolves<V(!new)>(
    p: Plan<V>, k: Kernels<V>, feeds: seq<map<nat, V>>, late: bool) returns (envs: seq<map<nat, V>>)
    requires Evaluates(p, k, feeds, late)
    ensures Solution(p, k, feeds, late, envs)
    ensures forall i | 0 <= i < |feeds| :: EnvAll(p, k, feeds, late, i) == Some(envs[i])
  {
    hide Solves, Given, Lawful, EnvAll, Tidy;
    envs := seq(|feeds|, i requires 0 <= i < |feeds| => EnvAll(p, k, feeds, late, i).value);
    forall i | 0 <= i < |feeds|
      ensures Solves(p, k, i, p.fw + p.bw, Given(p, feeds, late, envs[0], i), envs[i])
    {
      BatchSolves(p, k, feeds, late, i);
    }
  }

  lemma BatchSolves<V(!new)>(p: Plan<V>, k: Kernels<V>, feeds: seq<map<nat, V>>, late: bool, i: nat)
    requires Evaluates(p, k, feeds, late) && i < |feeds|
    ensures EnvAll(p, k, feeds, late, 0).Some? && EnvAll(p, k, feeds, late, i).Some?
    ensures var start := Given(p, feeds, late, EnvAll(p, k, feeds, late, 0).value, i);
            Solves(p, k, i, p.fw + p.bw, start, EnvAll(p, k, feeds, late, i).value)
  {
    HandedIsGiven(p, k, feeds, late, i);
    hide Solves, NaiveTopo, Outs, Lawful, Given, EnvStart, ReadsPlain;
    var start := EnvStart(p, k, feeds, late, i).value;
    assert EnvAll(p, k, feeds, late, i).Some?;
    NaiveAppend(p, k, i, p.fw, p.bw, start);
    NaiveSolves(p, k, i, p.fw + p.bw, start);
  }

  // ---------- what a finished stage holds ----------

  /** A tensor asked for by the caller or read by an operation that was passed over. */
  ghost predicate LeftFor<V>(p: Plan<V>, i: nat, t: nat) {
    t in p.fetched || exists op :: op in p.fw + p.bw && Passed(p, i, op) && t in op.ins
  }

  /** An operation of the backward pass that no micro-batch passes over makes `t`. */
  ghost predicate MadeEveryTime<V>(p: Plan<V>, m: nat, t: nat) {
    exists op :: op in p.bw && t in op.outs && forall i: nat | i < m :: !Passed(p, i, op)
  }

  /** The sums of `t` over the first micro-batches, from left to right. */
  ghost predicate PartialSums<V(!new)>(k: Kernels<V>, envs: seq<map<nat, V>>, t: nat, sums: seq<V>) {
    && |sums| == |envs| && (forall i | 0 <= i < |envs| :: t in envs[i])
    && (|sums| > 0 ==> sums[0] == envs[0][t])
    && (forall i | 0 < i < |sums| :: sums[i] == k.add(sums[i - 1], envs[i][t]))
  }

  /**
   The stage holds a solution: tensors left for somebody with their own value, and accumulated ones, in the
   accumulators and in the last micro-batch, with the sum over all micro-batches.
   */
  ghost predicate HoldsSolution<V(!new)>(p: Plan<V>, k: Kernels<V>, envs: seq<map<nat, V>>, run: Run<V>) {
    && |run.micros| == |envs| >= 1
    && (forall i, t | 0 <= i < |envs| && t in envs[i] && t !in p.accumulated && LeftFor(p, i, t) ::
          t in run.micros[i].data && run.micros[i].data[t] == envs[i][t])
    && (forall t | t in p.accumulated && MadeEveryTime(p, |envs|, t) :: HoldsSum(k, envs, run, t))
  }

  ghost predicate HoldsSum<V(!new)>(k: Kernels<V>, envs: seq<map<nat, V>>, run: Run<V>, t: nat)
    requires |run.micros| == |envs| >= 1
  {
    exists sums: seq<V> :: PartialSums(k, envs, t, sums) && SumIn(run, |envs|, t, sums[|envs| - 1])
  }

  ghost predicate SumIn<V(!new)>(run: Run<V>, m: nat, t: nat, total: V)
    requires |run.micros| == m >= 1
  {
    && t in run.acc && run.acc[t] == total
    && t in run.micros[m - 1].data && run.micros[m - 1].data[t] == total
  }

  lemma {:induction false} SumsAre<V(!new)>(
    p: Plan<V>, k: Kernels<V>, feeds: seq<map<nat, V>>, late: bool, envs: seq<map<nat, V>>, b: nat, t: nat)
    returns (sums: seq<V>)
    requires Evaluates(p, k, feeds, late) && 1 <= b <= |feeds| == |envs| && MadeEveryTime(p, |feeds|, t)
    requires forall i | 0 <= i < |feeds| :: EnvAll(p, k, feeds, late, i) == Some(envs[i])
    ensures |sums| == b && PartialSums(k, envs[..b], t, sums)
    ensures GradSum(p, k, feeds, late, b, t) == Some(sums[b - 1])
  {
    hide *;
    MadeHere(p, k, feeds, late, b - 1, t);
    if b == 1 {
      sums := [envs[0][t]];
      FirstSum(p, k, feeds, late, t);
      assert envs[..1] == [envs[0]];
      OneSum(k, envs[..1], t);
    } else {
      var most := SumsAre(p, k, feeds, late, envs, b - 1, t);
      assert |envs[..b - 1]| == b - 1;
      sums := most + [k.add(most[b - 2], envs[b - 1][t])];
      NextSum(p, k, feeds, late, b, t);
      assert envs[..b] == envs[..b - 1] + [envs[b - 1]];
      MoreSums(k, envs[..b - 1], envs[b - 1], t, most);
    }
  }

  lemma OneSum<V(!new)>(k: Kernels<V>, envs: seq<map<nat, V>>, t: nat)
    requires |envs| == 1 && t in envs[0]
    ensures PartialSums(k, envs, t, [envs[0][t]])
  {
  }

  lemma MoreSums<V(!new)>(k: Kernels<V>, envs: seq<map<nat, V>>, env: map<nat, V>, t: nat, sums: seq<V>)
    requires |envs| >= 1 && PartialSums(k, envs, t, sums) && t in env
    ensures PartialSums(k, envs + [env], t, sums + [k.add(sums[|envs| - 1], env[t])])
  {
  }

  lemma MadeHere<V(!new)>(p: Plan<V>, k: Kernels<V>, feeds: seq<map<nat, V>>, late: bool, i: nat, t: nat)
    requires Evaluates(p, k, feeds, late) && i < |feeds| && MadeEveryTime(p, |feeds|, t)
    ensures Produced(p, i, p.bw, t) && EnvAll(p, k, feeds, late, i).Some? && t in EnvAll(p, k, feeds, late, i).value
  {
    hide Passed, Runs, NaiveTopo, EnvForward, Tidy, Lawful;
    assert EnvAll(p, k, feeds, late, i).Some?;
    var op :| op in p.bw && t in op.outs && forall i: nat | i < |feeds| :: !Passed(p, i, op);
    RunsUnlessPassed(p, i, op);
    var j := IndexOf(p.bw, op);
    assert p.bw[j] == op;
    NaiveKeeps(p, k, i, p.bw, EnvForward(p, k, feeds, late, i).value, t);
  }

  lemma FirstSum<V(!new)>(p: Plan<V>, k: Kernels<V>, feeds: seq<map<nat, V>>, late: bool, t: nat)
    requires Evaluates(p, k, feeds, late) && |feeds| >= 1 && Produced(p, 0, p.bw, t)
    requires EnvAll(p, k, feeds, late, 0).Some? && t in EnvAll(p, k, feeds, late, 0).value
    ensures GradSum(p, k, feeds, late, 1, t) == Some(EnvAll(p, k, feeds, late, 0).value[t])
  {
    hide EnvAll, Produced, Tidy;
    assert GradSum(p, k, feeds, late, 0, t) == None;
  }

  lemma NextSum<V(!new)>(p: Plan<V>, k: Kernels<V>, feeds: seq<map<nat, V>>, late: bool, b: nat, t: nat)
    requires Evaluates(p, k, feeds, late) && 1 < b <= |feeds| && Produced(p, b - 1, p.bw, t)
    requires EnvAll(p, k, feeds, late, b - 1).Some? && t in EnvAll(p, k, feeds, late, b - 1).value
    requires GradSum(p, k, feeds, late, b - 1, t).Some?
    ensures GradSum(p, k, feeds, late, b, t)
         == Some(k.add(GradSum(p, k, feeds, late, b - 1, t).value, EnvAll(p, k, feeds, late, b - 1).value[t]))
  {
    hide EnvAll, Produced, Tidy;
  }

  /** A finished stage holds the solution of its equations. */
  lemma FinishedHoldsSolution<V(!new)>(
    p: Plan<V>, k: Kernels<V>, feeds: seq<map<nat, V>>, late: bool, run: Run<V>) returns (envs: seq<map<nat, V>>)
    requires Evaluates(p, k, feeds, late) && |feeds| >= 1 && Finished(p, k, feeds, late, run)
    ensures Lawful(k) && Solution(p, k, feeds, late, envs) && HoldsSolution(p, k, envs, run)
  {
    hide *;
    EvaluatesMeans(p, k, feeds, late, map[]);
    envs := EvaluatesSolves(p, k, feeds, late);
    SolutionLength(p, k, feeds, late, envs);
    forall i, t | 0 <= i < |envs| && t in envs[i] && t !in p.accumulated && LeftFor(p, i, t)
      ensures |run.micros| == |envs| && t in run.micros[i].data && run.micros[i].data[t] == envs[i][t]
    {
      LeftThere(p, k, feeds, late, run, i, t);
    }
    forall t | t in p.accumulated && MadeEveryTime(p, |envs|, t)
      ensures |run.micros| == |envs| && HoldsSum(k, envs, run, t)
    {
      SumThere(p, k, feeds, late, run, envs, t);
    }
    FinishedLength(p, k, feeds, late, run);
    HoldsSolutionIs(p, k, envs, run);
  }

  lemma HoldsSolutionIs<V(!new)>(p: Plan<V>, k: Kernels<V>, envs: seq<map<nat, V>>, run: Run<V>)
    requires |run.micros| == |envs| >= 1
    requires forall i, t | 0 <= i < |envs| && t in envs[i] && t !in p.accumulated && LeftFor(p, i, t) ::
               t in run.micros[i].data && run.micros[i].data[t] == envs[i][t]
    requires forall t | t in p.accumulated && MadeEveryTime(p, |envs|, t) :: HoldsSum(k, envs, run, t)
    ensures HoldsSolution(p, k, envs, run)
  {
    hide LeftFor, MadeEveryTime, HoldsSum;
  }

  lemma SolutionLength<V(!new)>(
    p: Plan<V>, k: Kernels<V>, feeds: seq<map<nat, V>>, late: bool, envs: seq<map<nat, V>>)
    requires Lawful(k) && Solution(p, k, feeds, late, envs)
    ensures |envs| == |feeds|
  {
  }

  lemma FinishedLength<V(!new)>(p: Plan<V>, k: Kernels<V>, feeds: seq<map<nat, V>>, late: bool, run: Run<V>)
    requires Evaluates(p, k, feeds, late) && |feeds| >= 1 && Finished(p, k, feeds, late, run)
    ensures |run.micros| == |feeds|
  {
  }

  lemma LeftThere<V(!new)>(
    p: Plan<V>, k: Kernels<V>, feeds: seq<map<nat, V>>, late: bool, run: Run<V>, i: nat, t: nat)
    requires Evaluates(p, k, feeds, late) && |feeds| >= 1 && Finished(p, k, feeds, late, run) && i < |feeds|
    requires EnvAll(p, k, feeds, late, i).Some? && t in EnvAll(p, k, feeds, late, i).value
    requires t !in p.accumulated && LeftFor(p, i, t)
    ensures |run.micros| == |feeds| && t in run.micros[i].data
    ensures run.micros[i].data[t] == EnvAll(p, k, feeds, late, i).value[t]
  {
    hide Agrees, EnvAll, TotalsIn, Passed, Tidy, Lawful;
    var env := EnvAll(p, k, feeds, late, i).value;
    if t in p.fetched {
      KeptForLater(p, i, env, run.micros[i], Op(0, [], [], 0), t);
    } else {
      var op :| op in p.fw + p.bw && Passed(p, i, op) && t in op.ins;
      KeptForLater(p, i, env, run.micros[i], op, t);
    }
  }

  lemma SumThere<V(!new)>(p: Plan<V>, k: Kernels<V>, feeds: seq<map<nat, V>>, late: bool, run: Run<V>,
                          envs: seq<map<nat, V>>, t: nat)
    requires Evaluates(p, k, feeds, late) && |envs| == |feeds| >= 1 && Finished(p, k, feeds, late, run)
    requires forall i | 0 <= i < |feeds| :: EnvAll(p, k, feeds, late, i) == Some(envs[i])
    requires t in p.accumulated && MadeEveryTime(p, |envs|, t)
    ensures |run.micros| == |envs| && HoldsSum(k, envs, run, t)
  {
    var m := |envs|;
    var sums := SumsAre(p, k, feeds, late, envs, m, t);
    assert envs[..m] == envs;
    MadeHere(p, k, feeds, late, m - 1, t);
    hide GradSum, PartialSums, Produced, EnvAll, Agrees, Tidy, MadeEveryTime, Lawful;
    assert SumIn(run, m, t, sums[m - 1]);
  }

  // ---------- a gradient and the update that reads it ----------

  const GRADIENT: Op := Op(0, [], [1], 0)
  const UPDATE: Op := Op(1, [1], [2], 0)

  /** Operation 0 makes a gradient, which is accumulated and fetched; operation 1, the update, is deferred. */
  function Training<V>(): Plan<V> {
    Plan([], [GRADIENT, UPDATE], {}, {}, [], {1}, {1}, {}, map[])
  }

  /** Two micro-batches of this plan: nothing is missed, and the update is left the sum of the two gradients. */
  lemma UpdateGetsSum<V(!new)>(k: Kernels<V>, degrees: map<nat, int>)
    requires Lawful(k) && StartsWith(Training<V>(), degrees)
    ensures Sound(Training<V>(), [map[], map[]], false)
    ensures var p, feeds := Training<V>(), [map[], map[]];
            var tasks := StageTasks(p, 1, 2, 0);
            && BatchesBelow(tasks, 2)
            && var run := RunTasks(p, k, StartRun(feeds, degrees), tasks, |tasks|);
            && run.Some?
            && |k.compute(GRADIENT, 0, [])| == |k.compute(GRADIENT, 1, [])| == 1 && |run.value.micros| == 2
            && 1 in run.value.micros[1].data
            && run.value.micros[1].data[1] == k.add(k.compute(GRADIENT, 0, [])[0], k.compute(GRADIENT, 1, [])[0])
  {
    hide *;
    var p, feeds: seq<map<nat, V>> := Training<V>(), [map[], map[]];
    TrainingSound(feeds);
    NotLate(StageTasks(p, 1, 2, 0));
    StageComputesGradients(p, k, feeds, false, degrees, 1, 0);
    StartLength(feeds, degrees);
    var tasks := StageTasks(p, 1, 2, 0);
    var run := RunTasks(p, k, StartRun(feeds, degrees), tasks, |tasks|).value;
    var envs := FinishedHoldsSolution(p, k, feeds, false, run);
    SolutionLength(p, k, feeds, false, envs);
    GradientIs(k, feeds, envs, 0);
    GradientIs(k, feeds, envs, 1);
    HeldSum(k, envs, run);
  }

  lemma NotLate(tasks: seq<Task>)
    ensures InTime(false, tasks)
  {
  }

  lemma TrainingSound<V>(feeds: seq<map<nat, V>>)
    requires forall i | 0 <= i < |feeds| :: feeds[i] == map[]
    ensures Sound(Training<V>(), feeds, false)
  {
    var p := Training<V>();
    TrainingOuts([GRADIENT, UPDATE]);
    assert p.fw + p.bw == [GRADIENT, UPDATE];
    hide Outs;
    forall i | 0 <= i < |feeds| ensures Connected(p, feeds, false, i) { }
  }

  lemma TrainingOuts(ops: seq<Op>)
    requires ops == [GRADIENT, UPDATE]
    ensures Outs(ops) == [1, 2]
  {
    assert ops[..1] == [GRADIENT] && ops[1] == UPDATE && ops[..1][..0] == [];
    assert Outs(ops[..1][..0]) == [];
    assert Outs(ops[..1]) == [] + GRADIENT.outs == [1];
    assert Outs(ops) == Outs(ops[..1]) + UPDATE.outs;
  }

  lemma GradientIs<V(!new)>(k: Kernels<V>, feeds: seq<map<nat, V>>, envs: seq<map<nat, V>>, i: nat)
    requires Lawful(k) && Solution(Training<V>(), k, feeds, false, envs) && i < |envs|
    ensures |k.compute(GRADIENT, i, [])| == 1 && 1 in envs[i] && envs[i][1] == k.compute(GRADIENT, i, [])[0]
  {
    hide Equation, MadeBefore, Given;
    var p := Training<V>();
    var ops, start := p.fw + p.bw, Given(p, feeds, false, envs[0], i);
    assert ops[0] == GRADIENT && Solves(p, k, i, ops, start, envs[i]);
    assert ops[0].outs[0] == 1 && 1 in ops[0].outs;
    assert !Passed(p, i, ops[0]);
    var xs :| Equation(p, k, i, ops, start, envs[i], 0, xs);
    OneEquation(p, k, i, ops, start, envs[i], xs);
  }

  lemma OneEquation<V(!new)>(
    p: Plan<V>, k: Kernels<V>, mb: nat, ops: seq<Op>, start: map<nat, V>, env: map<nat, V>, xs: seq<V>)
    requires Lawful(k) && ops != [] && ops[0] == GRADIENT && Equation(p, k, mb, ops, start, env, 0, xs)
    ensures |k.compute(GRADIENT, mb, [])| == 1 && 1 in env && env[1] == k.compute(GRADIENT, mb, [])[0]
  {
    assert xs == [];
    assert ops[0].outs[0] == 1;
  }

  lemma HeldSum<V(!new)>(k: Kernels<V>, envs: seq<map<nat, V>>, run: Run<V>)
    requires HoldsSolution(Training<V>(), k, envs, run) && |envs| == 2
    ensures |run.micros| == 2 && 1 in run.micros[1].data && 1 in envs[0] && 1 in envs[1]
    ensures run.micros[1].data[1] == k.add(envs[0][1], envs[1][1])
  {
    var p := Training<V>();
    assert GRADIENT in p.bw && GRADIENT.outs[0] == 1 && 1 in GRADIENT.outs;
    assert forall i: nat | i < 2 :: !Passed(p, i, GRADIENT);
    assert MadeEveryTime(p, 2, 1);
    assert HoldsSum(k, envs, run, 1);
  }
}
