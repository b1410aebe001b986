/** When every input an operation reads has been made: a condition on the plan alone. */
module ReadyInputs {
  import opened Collections
  import opened Executor

  /** The tensors there are after the operations, from those there are before. */
  function Made<V>(p: Plan<V>, mb: nat, ops: seq<Op>, known: set<nat>): set<nat> {
    if ops == [] then known else
      var op := ops[|ops| - 1];
      Made(p, mb, ops[..|ops| - 1], known) + if Passed(p, mb, op) then {} else set t | t in op.outs
  }

  /** Every input of an operation that runs is preserved, there from the start, or made by an earlier one that runs. */
  ghost predicate Ready<V>(p: Plan<V>, mb: nat, ops: seq<Op>, known: set<nat>) {
    forall j | 0 <= j < |ops| && !Passed(p, mb, ops[j]) :: InputsAt(p, mb, ops, known, j)
  }

  ghost predicate InputsAt<V>(p: Plan<V>, mb: nat, ops: seq<Op>, known: set<nat>, j: nat)
    requires j < |ops|
  {
    forall t | t in ops[j].ins :: t in p.preserved || t in known || MadeBefore(p, mb, ops, j, t)
  }

  ghost predicate MadeBefore<V>(p: Plan<V>, mb: nat, ops: seq<Op>, j: nat, t: nat)
    requires j <= |ops|
  {
    exists i :: 0 <= i < j && !Passed(p, mb, ops[i]) && t in ops[i].outs
  }

  lemma {:induction false} MadeIff<V>(p: Plan<V>, mb: nat, ops: seq<Op>, known: set<nat>, t: nat)
    ensures t in Made(p, mb, ops, known) <==> t in known || MadeBefore(p, mb, ops, |ops|, t)
  {
    if ops != [] {
      var n := |ops| - 1;
      MadeIff(p, mb, ops[..n], known, t);
      BeforeInPrefix(p, mb, ops, n, n, t);
      BeforeNext(p, mb, ops, n, t);
    }
  }

  lemma BeforeInPrefix<V>(p: Plan<V>, mb: nat, ops: seq<Op>, n: nat, j: nat, t: nat)
    requires j <= n <= |ops|
    ensures MadeBefore(p, mb, ops[..n], j, t) <==> MadeBefore(p, mb, ops, j, t)
  {
    hide Passed;
    forall i | 0 <= i < j ensures ops[..n][i] == ops[i] { }
  }

  lemma BeforeNext<V>(p: Plan<V>, mb: nat, ops: seq<Op>, j: nat, t: nat)
    requires j < |ops|
    ensures MadeBefore(p, mb, ops, j + 1, t)
       <==> MadeBefore(p, mb, ops, j, t) || (!Passed(p, mb, ops[j]) && t in ops[j].outs)
  {
    hide Passed;
  }

  lemma ReadyLast<V>(p: Plan<V>, mb: nat, ops: seq<Op>, known: set<nat>)
    requires ops != []
    ensures var n := |ops| - 1;
            Ready(p, mb, ops, known) <==>
            Ready(p, mb, ops[..n], known) && (!Passed(p, mb, ops[n]) ==> InputsAt(p, mb, ops, known, n))
  {
    hide Passed, InputsAt;
    var n := |ops| - 1;
    forall j | 0 <= j < n ensures ops[..n][j] == ops[j]
                          ensures InputsAt(p, mb, ops[..n], known, j) <==> InputsAt(p, mb, ops, known, j) {
      InputsInPrefix(p, mb, ops, known, n, j);
    }
  }

  lemma InputsInPrefix<V>(p: Plan<V>, mb: nat, ops: seq<Op>, known: set<nat>, n: nat, j: nat)
    requires j < n <= |ops|
    ensures InputsAt(p, mb, ops[..n], known, j) <==> InputsAt(p, mb, ops, known, j)
  {
    hide MadeBefore;
    forall t ensures MadeBefore(p, mb, ops[..n], j, t) <==> MadeBefore(p, mb, ops, j, t) {
      BeforeInPrefix(p, mb, ops, n, j, t);
    }
  }

  /** The interpreter that never erases gets through exactly when every input is ready, whatever the kernels compute. */
  lemma {:induction false} NaiveReadyIff<V(!new)>(
    p: Plan<V>, k: Kernels<V>, mb: nat, ops: seq<Op>, env: map<nat, V>)
    requires Lawful(k)
    ensures NaiveTopo(p, k, mb, ops, env).Some? <==> Ready(p, mb, ops, env.Keys)
    ensures NaiveTopo(p, k, mb, ops, env).Some? ==>
              NaiveTopo(p, k, mb, ops, env).value.Keys == Made(p, mb, ops, env.Keys)
  {
    if ops == [] {
      assert Ready(p, mb, ops, env.Keys);
      return;
    }
    hide *;
    var n := |ops| - 1;
    NaiveReadyIff(p, k, mb, ops[..n], env);
    ReadyLast(p, mb, ops, env.Keys);
    NaiveLast(p, k, mb, ops, env);
    if NaiveTopo(p, k, mb, ops[..n], env).Some? {
      LastReads(p, k, mb, ops, env.Keys, NaiveTopo(p, k, mb, ops[..n], env).value);
    }
  }

  lemma NaiveLast<V(!new)>(p: Plan<V>, k: Kernels<V>, mb: nat, ops: seq<Op>, env: map<nat, V>)
    requires Lawful(k) && ops != []
    ensures var n := |ops| - 1;
            var most := NaiveTopo(p, k, mb, ops[..n], env);
            NaiveTopo(p, k, mb, ops, env) == if most.None? then None else NaiveOp(p, k, mb, ops[n], most.value)
  {
    hide NaiveOp;
  }

  /** One more operation runs exactly when its inputs are ready. */
  lemma LastReads<V(!new)>(p: Plan<V>, k: Kernels<V>, mb: nat, ops: seq<Op>, known: set<nat>, env: map<nat, V>)
    requires Lawful(k) && ops != [] && env.Keys == Made(p, mb, ops[..|ops| - 1], known)
    ensures var n := |ops| - 1;
            && (NaiveOp(p, k, mb, ops[n], env).Some? <==> (!Passed(p, mb, ops[n]) ==> InputsAt(p, mb, ops, known, n)))
            && (NaiveOp(p, k, mb, ops[n], env).Some? ==>
                  NaiveOp(p, k, mb, ops[n], env).value.Keys == Made(p, mb, ops, known))
  {
    hide MadeBefore, Passed, Runs;
    var n := |ops| - 1;
    var op := ops[n];
    RunsUnlessPassed(p, mb, op);
    forall t ensures t in env.Keys <==> t in known || MadeBefore(p, mb, ops, n, t) {
      MadeIff(p, mb, ops[..n], known, t);
      BeforeInPrefix(p, mb, ops, n, n, t);
    }
    LooksIff(p, env, op.ins);
    hide Look;
  }

  lemma LooksIff<V>(p: Plan<V>, env: map<nat, V>, ts: seq<nat>)
    ensures Look(p, env, ts).Some? <==> forall t | t in ts :: t in p.preserved || t in env.Keys
  {
    if Look(p, env, ts).Some? {
      forall t | t in ts ensures t in p.preserved || t in env.Keys {
        var i := IndexOf(ts, t);
      }
    }
  }

  // ---------- a whole stage ----------

  /** The tensors micro-batch 0 has when it hands some over: after its forward, or (`late`) after its backward too. */
  function HandedKeys<V>(p: Plan<V>, feeds: seq<map<nat, V>>, late: bool): set<nat>
    requires |feeds| > 0
  {
    var forward := Made(p, 0, p.fw, feeds[0].Keys);
    if late then Made(p, 0, p.bw, forward) else forward
  }

  function StartKeys<V>(p: Plan<V>, feeds: seq<map<nat, V>>, late: bool, i: nat): set<nat>
    requires i < |feeds|
  {
    if i == 0 then feeds[0].Keys else
      feeds[i].Keys + set t | t in HandedKeys(p, feeds, late) && t in p.transfers
  }

  /** Both passes of a micro-batch find their inputs. */
  ghost predicate Connected<V>(p: Plan<V>, feeds: seq<map<nat, V>>, late: bool, i: nat)
    requires i < |feeds|
  {
    var start := StartKeys(p, feeds, late, i);
    Ready(p, i, p.fw, start) && Ready(p, i, p.bw, Made(p, i, p.fw, start))
  }
}
