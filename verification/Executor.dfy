/** Running a micro-batch with reference counts, against an interpreter that never drops anything. */
module Executor {
  import opened Collections

  /** `linker` stands for the output when there are no outputs. */
  datatype Op = Op(id: nat, ins: seq<nat>, outs: seq<nat>, linker: nat)

  /** Kernels are exact functions of the operation, the micro-batch and the inputs. */
  datatype Kernels<!V> = Kernels(compute: (Op, nat, seq<V>) -> seq<V>, zerosLike: V -> V, add: (V, V) -> V)

  /**
   The cached execution plan: operations of the two passes, those skipped at run time, the
   tensors fed, transferred once, accumulated and fetched, and the deferred operations.
   */
  datatype Plan<V> = Plan(fw: seq<Op>, bw: seq<Op>, skipped: set<nat>, fed: set<nat>, transfers: seq<nat>,
                          accumulated: set<nat>, deferred: set<nat>, fetched: set<nat>, preserved: map<nat, V>)

  /** One micro-batch: its arrays, the tensors with an entry but no array, and the remaining degrees. */
  datatype Micro<V> = Micro(data: map<nat, V>, undefined: set<nat>, degrees: map<nat, int>) {
    /** Whether the tensor has an entry at all, defined or not. */
    predicate Has(t: nat) {
      t in data || t in undefined
    }

    function Set(t: nat, v: V): Micro<V> {
      this.(data := data[t := v], undefined := undefined - {t})
    }
  }

  ghost predicate Lawful<V(!new)>(k: Kernels<V>) {
    && (forall o: Op, mb: nat, xs: seq<V> :: |k.compute(o, mb, xs)| == |o.outs|)
    && (forall v: V :: k.add(k.zerosLike(v), v) == v)
  }

  lemma ComputesAll<V(!new)>(k: Kernels<V>, op: Op, mb: nat, xs: seq<V>)
    requires Lawful(k)
    ensures |k.compute(op, mb, xs)| == |op.outs|
  {
  }

  function Degree(degrees: map<nat, int>, t: nat): int {
    if t in degrees then degrees[t] else 0
  }

  predicate IsFedOp<V>(p: Plan<V>, op: Op) {
    if op.outs == [] then op.linker in p.fed else forall t <- op.outs :: t in p.fed
  }

  /** The operations the loop does not pass over. */
  predicate Runs<V>(p: Plan<V>, mb: nat, op: Op) {
    && op.id !in p.skipped
    && !IsFedOp(p, op)
    && !(|op.outs| > 0 && op.outs[0] in p.transfers && mb > 0)
    && op.id !in p.deferred
  }

  /**
   The operations a pass leaves alone: skipped or deferred ones, those whose outputs are all fed, and, above
   micro-batch 0, those whose first output is handed over.
   */
  predicate Passed<V>(p: Plan<V>, mb: nat, op: Op) {
    || op.id in p.skipped
    || op.id in p.deferred
    || (op.outs == [] && op.linker in p.fed)
    || (op.outs != [] && forall t <- op.outs :: t in p.fed)
    || (op.outs != [] && op.outs[0] in p.transfers && mb > 0)
  }

  lemma RunsUnlessPassed<V>(p: Plan<V>, mb: nat, op: Op)
    ensures Runs(p, mb, op) <==> !Passed(p, mb, op)
  {
  }

  // ---------- with early release ----------

  /** Reads one input, counts its degree down and drops it at zero unless it is still needed. */
  function Take<V>(p: Plan<V>, mb: nat, st: Micro<V>, t: nat): Option<(V, Micro<V>)> {
    if t in p.preserved then Some((p.preserved[t], st))
    else if t !in st.data then None
    else
      var d := Degree(st.degrees, t) - 1;
      var drop := d == 0 && t !in p.fetched && (mb == 0 ==> t !in p.transfers);
      Some((st.data[t], Micro(if drop then st.data - {t} else st.data, st.undefined, st.degrees[t := d])))
  }

  function TakeAll<V>(p: Plan<V>, mb: nat, st: Micro<V>, ts: seq<nat>): (r: Option<(seq<V>, Micro<V>)>)
    ensures r.Some? ==> |r.value.0| == |ts|
  {
    if ts == [] then Some(([], st)) else
      var most := TakeAll(p, mb, st, ts[..|ts| - 1]);
      if most.None? then None else
        var last := Take(p, mb, most.value.1, ts[|ts| - 1]);
        if last.None? then None else Some((most.value.0 + [last.value.0], last.value.1))
  }

  function Plus<V>(k: Kernels<V>, acc: map<nat, V>, t: nat, v: V): V {
    k.add(if t in acc then acc[t] else k.zerosLike(v), v)
  }

  /** Stores one output: accumulated, copied because it is fetched, or kept while somebody reads it. */
  function Put<V>(
    p: Plan<V>, k: Kernels<V>, st: Micro<V>, acc: map<nat, V>, t: nat, v: V, finished: bool): (Micro<V>, map<nat, V>) {
    if t in p.accumulated then
      var acc' := acc[t := Plus(k, acc, t, v)];
      (if finished then st.Set(t, acc'[t]) else st, acc')
    else if t in p.fetched then (st.Set(t, k.add(k.zerosLike(v), v)), acc)
    else if Degree(st.degrees, t) > 0 then (st.Set(t, v), acc)
    else (st, acc)
  }

  function PutAll<V>(
    p: Plan<V>, k: Kernels<V>, st: Micro<V>, acc: map<nat, V>, ts: seq<nat>, vs: seq<V>, finished: bool)
    : (Micro<V>, map<nat, V>)
    requires |ts| == |vs|
  {
    if ts == [] then (st, acc) else
      var n := |ts| - 1;
      var (st', acc') := PutAll(p, k, st, acc, ts[..n], vs[..n], finished);
      Put(p, k, st', acc', ts[n], vs[n], finished)
  }

  function RunOp<V(!new)>(p: Plan<V>, k: Kernels<V>, mb: nat, op: Op, finished: bool, st: Micro<V>, acc: map<nat, V>)
    : Option<(Micro<V>, map<nat, V>)>
    requires Lawful(k)
  {
    if !Runs(p, mb, op) then Some((st, acc)) else
      var taken := TakeAll(p, mb, st, op.ins);
      if taken.None? then None
      else Some(PutAll(p, k, taken.value.1, acc, op.outs, k.compute(op, mb, taken.value.0), finished))
  }

  function RunTopo<V(!new)>(
    p: Plan<V>, k: Kernels<V>, mb: nat, ops: seq<Op>, finished: bool, st: Micro<V>, acc: map<nat, V>)
    : Option<(Micro<V>, map<nat, V>)>
    requires Lawful(k)
  {
    if ops == [] then Some((st, acc)) else
      var most := RunTopo(p, k, mb, ops[..|ops| - 1], finished, st, acc);
      if most.None? then None else RunOp(p, k, mb, ops[|ops| - 1], finished, most.value.0, most.value.1)
  }

  // ---------- the interpreter that never erases ----------

  function Look<V>(p: Plan<V>, env: map<nat, V>, ts: seq<nat>): (r: Option<seq<V>>)
    ensures r.Some? ==> |r.value| == |ts|
    ensures r.Some? <==> forall i | 0 <= i < |ts| :: ts[i] in p.preserved || ts[i] in env
    ensures r.Some? ==> forall i | 0 <= i < |ts| ::
              r.value[i] == if ts[i] in p.preserved then p.preserved[ts[i]] else env[ts[i]]
  {
    if ts == [] then Some([]) else
      var most, t := Look(p, env, ts[..|ts| - 1]), ts[|ts| - 1];
      if most.None? || !(t in p.preserved || t in env) then None
      else Some(most.value + [if t in p.preserved then p.preserved[t] else env[t]])
  }

  function Bind<V>(env: map<nat, V>, ts: seq<nat>, vs: seq<V>): (r: map<nat, V>)
    requires |ts| == |vs|
    ensures forall t :: t in r <==> t in env || t in ts
    ensures forall t <- env :: t !in ts ==> r[t] == env[t]
  {
    if ts == [] then env else
      var n := |ts| - 1;
      Bind(env, ts[..n], vs[..n])[ts[n] := vs[n]]
  }

  function NaiveOp<V(!new)>(p: Plan<V>, k: Kernels<V>, mb: nat, op: Op, env: map<nat, V>): Option<map<nat, V>>
    requires Lawful(k)
  {
    if !Runs(p, mb, op) then Some(env) else
      var xs := Look(p, env, op.ins);
      if xs.None? then None else Some(Bind(env, op.outs, k.compute(op, mb, xs.value)))
  }

  function NaiveTopo<V(!new)>(p: Plan<V>, k: Kernels<V>, mb: nat, ops: seq<Op>, env: map<nat, V>): Option<map<nat, V>>
    requires Lawful(k)
  {
    if ops == [] then Some(env) else
      var most := NaiveTopo(p, k, mb, ops[..|ops| - 1], env);
      if most.None? then None else NaiveOp(p, k, mb, ops[|ops| - 1], most.value)
  }

  // ---------- what the plan's sets mean ----------

  /**
   An operation that is skipped, deferred, all fed, or handed over above micro-batch 0 is passed over: nothing is
   read, nothing counted down, nothing stored and nothing accumulated.
   */
  lemma PassedOver<V(!new)>(p: Plan<V>, k: Kernels<V>, mb: nat, op: Op, finished: bool, st: Micro<V>,
                            acc: map<nat, V>, env: map<nat, V>)
    requires Lawful(k)
    requires op.id in p.skipped || op.id in p.deferred
             || (if op.outs == [] then op.linker in p.fed else forall t <- op.outs :: t in p.fed)
             || (op.outs != [] && op.outs[0] in p.transfers && mb > 0)
    ensures RunOp(p, k, mb, op, finished, st, acc) == Some((st, acc))
    ensures NaiveOp(p, k, mb, op, env) == Some(env)
  {
  }

  /** `xs` are the values of `ts`: the preserved one where there is one, else the one of this micro-batch. */
  ghost predicate Reads<V(!new)>(p: Plan<V>, env: map<nat, V>, ts: seq<nat>, xs: seq<V>) {
    && |xs| == |ts|
    && (forall i | 0 <= i < |ts| && ts[i] in p.preserved :: xs[i] == p.preserved[ts[i]])
    && (forall i | 0 <= i < |ts| && ts[i] !in p.preserved :: ts[i] in env && xs[i] == env[ts[i]])
  }

  /**
   Every other operation fails when one of its inputs is unknown, and otherwise gives its outputs exactly what its
   kernel computes from them; all other tensors stay.
   */
  lemma Performed<V(!new)>(p: Plan<V>, k: Kernels<V>, mb: nat, op: Op, env: map<nat, V>)
    requires Lawful(k) && NoDup(op.outs) && op.id !in p.skipped && op.id !in p.deferred
    requires if op.outs == [] then op.linker !in p.fed else exists t <- op.outs :: t !in p.fed
    requires op.outs == [] || op.outs[0] !in p.transfers || mb == 0
    ensures NaiveOp(p, k, mb, op, env).Some? <==> forall t <- op.ins :: t in p.preserved || t in env
    ensures forall xs: seq<V> | Reads(p, env, op.ins, xs) ::
              && NaiveOp(p, k, mb, op, env).Some? && |k.compute(op, mb, xs)| == |op.outs|
              && var after := NaiveOp(p, k, mb, op, env).value;
              && (forall i | 0 <= i < |op.outs| ::
                    op.outs[i] in after && after[op.outs[i]] == k.compute(op, mb, xs)[i])
              && (forall t: nat | t !in op.outs ::
                    (t in after <==> t in env) && (t in env ==> after[t] == env[t]))
  {
    var vals := Look(p, env, op.ins);
    assert vals.Some? <==> forall t <- op.ins :: t in p.preserved || t in env by {
      if vals.Some? {
        forall t | t in op.ins ensures t in p.preserved || t in env {
          var i := IndexOf(op.ins, t);
        }
      }
    }
    forall xs: seq<V> | Reads(p, env, op.ins, xs) ensures vals == Some(xs) {
      LooksAre(p, env, op.ins, xs);
    }
    if vals.Some? {
      BindsAt(env, op.outs, k.compute(op, mb, vals.value));
    }
  }

  lemma LooksAre<V(!new)>(p: Plan<V>, env: map<nat, V>, ts: seq<nat>, xs: seq<V>)
    ensures Reads(p, env, ts, xs) <==> Look(p, env, ts) == Some(xs)
  {
    if Look(p, env, ts).Some? && Reads(p, env, ts, xs) {
      assert Look(p, env, ts).value == xs;
    }
  }

  lemma {:induction false} BindsAt<V>(env: map<nat, V>, ts: seq<nat>, vs: seq<V>)
    requires |ts| == |vs| && NoDup(ts)
    ensures forall i | 0 <= i < |ts| :: ts[i] in Bind(env, ts, vs) && Bind(env, ts, vs)[ts[i]] == vs[i]
  {
    if ts != [] {
      var n := |ts| - 1;
      forall i, j | 0 <= i < j < n ensures ts[..n][i] != ts[..n][j] { }
      BindsAt(env, ts[..n], vs[..n]);
      BindLast(env, ts, vs, n);
    }
  }

  lemma BindLast<V>(env: map<nat, V>, ts: seq<nat>, vs: seq<V>, n: nat)
    requires |ts| == |vs| && n == |ts| - 1 && forall i | 0 <= i < n :: ts[i] != ts[n]
    requires forall i | 0 <= i < n ::
               ts[..n][i] in Bind(env, ts[..n], vs[..n]) && Bind(env, ts[..n], vs[..n])[ts[..n][i]] == vs[..n][i]
    ensures forall i | 0 <= i < |ts| :: ts[i] in Bind(env, ts, vs) && Bind(env, ts, vs)[ts[i]] == vs[i]
  {
    var most := Bind(env, ts[..n], vs[..n]);
    assert Bind(env, ts, vs) == most[ts[n] := vs[n]];
    hide Bind;
    forall i | 0 <= i < n ensures ts[i] in most && most[ts[i]] == vs[i] {
      assert ts[..n][i] == ts[i];
    }
  }

  // ---------- counting uses ----------

  function Occurs(ts: seq<nat>, t: nat): (n: nat)
    ensures t in ts <==> n > 0
  {
    if ts == [] then 0 else
      assert ts == ts[..|ts| - 1] + [ts[|ts| - 1]];
      Occurs(ts[..|ts| - 1], t) + if ts[|ts| - 1] == t then 1 else 0
  }

  /** How often the operations read `t`; this is the degree a micro-batch starts with. */
  function Uses(ops: seq<Op>, t: nat): nat {
    if ops == [] then 0 else Uses(ops[..|ops| - 1], t) + Occurs(ops[|ops| - 1].ins, t)
  }

  /** How often the operations that really ran have counted `t` down. */
  function Used<V>(p: Plan<V>, mb: nat, ops: seq<Op>, t: nat): nat {
    if ops == [] || t in p.preserved then 0 else
      Used(p, mb, ops[..|ops| - 1], t) + if Runs(p, mb, ops[|ops| - 1]) then Occurs(ops[|ops| - 1].ins, t) else 0
  }

  lemma {:induction false} UsesAppend(a: seq<Op>, b: seq<Op>, t: nat)
    ensures Uses(a + b, t) == Uses(a, t) + Uses(b, t)
  {
    if b == [] {
      assert a + b == a;
    } else {
      assert (a + b)[..|a + b| - 1] == a + b[..|b| - 1];
      UsesAppend(a, b[..|b| - 1], t);
    }
  }

  lemma {:induction false} UsedAtMostUses<V>(p: Plan<V>, mb: nat, ops: seq<Op>, t: nat)
    ensures Used(p, mb, ops, t) <= Uses(ops, t)
  {
    if ops != [] {
      UsedAtMostUses(p, mb, ops[..|ops| - 1], t);
    }
  }

  /** The outputs of the operations, in order. */
  function Outs(ops: seq<Op>): seq<nat> {
    if ops == [] then [] else Outs(ops[..|ops| - 1]) + ops[|ops| - 1].outs
  }

  ghost predicate Produced<V>(p: Plan<V>, mb: nat, ops: seq<Op>, t: nat) {
    exists i :: 0 <= i < |ops| && Runs(p, mb, ops[i]) && t in ops[i].outs
  }

  // ---------- the agreement of the two interpreters ----------

  /** A tensor somebody may still read: later operations, the caller, or the next micro-batches. */
  predicate Wanted<V>(p: Plan<V>, mb: nat, all: seq<Op>, degrees: map<nat, int>, t: nat) {
    Degree(degrees, t) > 0 || t in p.fetched || (mb == 0 && t in p.transfers && Uses(all, t) > 0)
  }

  /** Every tensor still wanted is there with the value of the interpreter that never erases. */
  ghost predicate Holds<V>(p: Plan<V>, mb: nat, all: seq<Op>, env: map<nat, V>, st: Micro<V>) {
    forall t <- env :: t !in p.accumulated && Wanted(p, mb, all, st.degrees, t) ==> t in st.data && st.data[t] == env[t]
  }

  /** The degrees are the uses not yet made. */
  ghost predicate Counted<V>(p: Plan<V>, mb: nat, all: seq<Op>, done: seq<Op>, st: Micro<V>) {
    forall t: nat :: Degree(st.degrees, t) == Uses(all, t) - Used(p, mb, done, t)
  }

  /**
   What a plan must promise: single assignment, transfers that are not fed, and accumulated tensors left
   to deferred operations.
   */
  ghost predicate WellFormed<V>(p: Plan<V>) {
    && NoDup(Outs(p.fw + p.bw))
    && (forall t <- p.transfers :: t !in p.fed)
    && (forall i | 0 <= i < |p.fw + p.bw| :: ReadsPlain(p, (p.fw + p.bw)[i]))
  }

  /** An operation that runs reads accumulated tensors only if they are preserved. */
  predicate ReadsPlain<V>(p: Plan<V>, op: Op) {
    Passed(p, 0, op) || forall t <- op.ins :: t in p.preserved || t !in p.accumulated
  }

  lemma RunsLater<V>(p: Plan<V>, mb: nat, op: Op)
    requires Runs(p, mb, op)
    ensures Runs(p, 0, op)
  {
  }

  lemma TakeOne<V>(p: Plan<V>, mb: nat, all: seq<Op>, env: map<nat, V>, st: Micro<V>, t: nat)
    requires Holds(p, mb, all, env, st)
    requires t in p.preserved || (t in env && t !in p.accumulated && Degree(st.degrees, t) > 0)
    ensures Take(p, mb, st, t).Some?
    ensures var (v, next) := Take(p, mb, st, t).value;
            && v == (if t in p.preserved then p.preserved[t] else env[t])
            && Holds(p, mb, all, env, next)
            && forall u: nat ::
                 Degree(next.degrees, u) == Degree(st.degrees, u) - if u == t && t !in p.preserved then 1 else 0
  {
  }

  lemma {:induction false} TakeAllAgrees<V>(
    p: Plan<V>, mb: nat, all: seq<Op>, env: map<nat, V>, st: Micro<V>, ts: seq<nat>)
    requires Holds(p, mb, all, env, st) && Look(p, env, ts).Some?
    requires forall t <- ts :: t in p.preserved || (t !in p.accumulated && Degree(st.degrees, t) >= Occurs(ts, t))
    ensures TakeAll(p, mb, st, ts).Some?
    ensures var (vs, next) := TakeAll(p, mb, st, ts).value;
            && vs == Look(p, env, ts).value && Holds(p, mb, all, env, next)
            && forall u: nat ::
                 Degree(next.degrees, u) == Degree(st.degrees, u) - if u in p.preserved then 0 else Occurs(ts, u)
  {
    if ts == [] {
      hide Holds;
      return;
    }
    hide *;
    var n := |ts| - 1;
    BeforeLast(p, st.degrees, ts);
    LookLast(p, env, ts);
    TakeAllAgrees(p, mb, all, env, st, ts[..n]);
    var next := TakeAll(p, mb, st, ts[..n]).value.1;
    OccursLast(ts);
    TakeOne(p, mb, all, env, next, ts[n]);
    TakeLast(p, mb, st, ts);
  }

  lemma BeforeLast<V>(p: Plan<V>, degrees: map<nat, int>, ts: seq<nat>)
    requires ts != []
    requires forall t <- ts :: t in p.preserved || (t !in p.accumulated && Degree(degrees, t) >= Occurs(ts, t))
    ensures var t := ts[|ts| - 1];
            t in p.preserved || (t !in p.accumulated && Degree(degrees, t) > Occurs(ts[..|ts| - 1], t))
    ensures forall t <- ts[..|ts| - 1] ::
              t in p.preserved || (t !in p.accumulated && Degree(degrees, t) >= Occurs(ts[..|ts| - 1], t))
  {
    hide Degree;
    assert forall t <- ts[..|ts| - 1] :: t in ts;
    assert ts[|ts| - 1] in ts;
  }

  lemma LookLast<V>(p: Plan<V>, env: map<nat, V>, ts: seq<nat>)
    requires ts != [] && Look(p, env, ts).Some?
    ensures var n := |ts| - 1;
            && Look(p, env, ts[..n]).Some? && (ts[n] in p.preserved || ts[n] in env)
            && Look(p, env, ts).value
            == Look(p, env, ts[..n]).value + [if ts[n] in p.preserved then p.preserved[ts[n]] else env[ts[n]]]
  {
  }

  lemma OccursLast(ts: seq<nat>)
    requires ts != []
    ensures forall u: nat :: Occurs(ts, u) == Occurs(ts[..|ts| - 1], u) + if ts[|ts| - 1] == u then 1 else 0
  {
  }

  lemma TakeLast<V>(p: Plan<V>, mb: nat, st: Micro<V>, ts: seq<nat>)
    requires ts != [] && TakeAll(p, mb, st, ts[..|ts| - 1]).Some?
    requires Take(p, mb, TakeAll(p, mb, st, ts[..|ts| - 1]).value.1, ts[|ts| - 1]).Some?
    ensures var most := TakeAll(p, mb, st, ts[..|ts| - 1]).value;
            var last := Take(p, mb, most.1, ts[|ts| - 1]).value;
            TakeAll(p, mb, st, ts) == Some((most.0 + [last.0], last.1))
  {
    hide Take;
  }

  /** The transfer outputs about to be stored have not been read before. */
  ghost predicate Fresh<V>(p: Plan<V>, all: seq<Op>, degrees: map<nat, int>, ts: seq<nat>) {
    forall t <- ts :: t in p.transfers ==> Degree(degrees, t) == Uses(all, t)
  }

  lemma PutOne<V(!new)>(p: Plan<V>, k: Kernels<V>, mb: nat, all: seq<Op>, env: map<nat, V>,
                        st: Micro<V>, acc: map<nat, V>, t: nat, v: V, finished: bool)
    requires Lawful(k) && Holds(p, mb, all, env, st)
    requires mb == 0 && t in p.transfers ==> Degree(st.degrees, t) == Uses(all, t)
    ensures var (next, acc') := Put(p, k, st, acc, t, v, finished);
            && next.degrees == st.degrees && Holds(p, mb, all, env[t := v], next)
            && (forall u <- acc :: u != t ==> u in acc' && acc'[u] == acc[u])
            && (forall u <- acc' :: u in acc || (u == t && t in p.accumulated))
            && (t in p.accumulated ==> t in acc' && acc'[t] == Plus(k, acc, t, v))
            && (t !in p.accumulated ==> acc' == acc)
  {
  }

  lemma {:induction false} PutAllAgrees<V(!new)>(
    p: Plan<V>, k: Kernels<V>, mb: nat, all: seq<Op>, env: map<nat, V>, st: Micro<V>, acc: map<nat, V>,
    ts: seq<nat>, vs: seq<V>, finished: bool)
    requires Lawful(k) && |ts| == |vs| && Holds(p, mb, all, env, st) && (mb == 0 ==> Fresh(p, all, st.degrees, ts))
    ensures var (next, _) := PutAll(p, k, st, acc, ts, vs, finished);
            next.degrees == st.degrees && Holds(p, mb, all, Bind(env, ts, vs), next)
  {
    hide Holds, Put, Uses, Lawful;
    if ts != [] {
      var n := |ts| - 1;
      assert ts == ts[..n] + [ts[n]];
      assert forall t <- ts[..n] :: t in ts;
      assert ts[n] in ts;
      PutAllAgrees(p, k, mb, all, env, st, acc, ts[..n], vs[..n], finished);
      var (st', acc') := PutAll(p, k, st, acc, ts[..n], vs[..n], finished);
      PutOne(p, k, mb, all, Bind(env, ts[..n], vs[..n]), st', acc', ts[n], vs[n], finished);
    }
  }

  // ---------- one operation, one pass ----------

  /** In micro-batch 0 whatever has been read or bound was fed or produced by the operations done. */
  ghost predicate Traced<V>(p: Plan<V>, done: seq<Op>, env: map<nat, V>) {
    && (forall t: nat :: Used(p, 0, done, t) > 0 ==> t in env)
    && (forall t <- env :: t in p.fed || t in Outs(done))
  }

  ghost predicate Agrees<V>(p: Plan<V>, mb: nat, done: seq<Op>, env: map<nat, V>, st: Micro<V>) {
    && Counted(p, mb, p.fw + p.bw, done, st)
    && Holds(p, mb, p.fw + p.bw, env, st)
    && (mb == 0 ==> Traced(p, done, env))
  }

  /** Early release never misses an input that the other interpreter finds, and computes the same values. */
  lemma RunOpAgrees<V(!new)>(p: Plan<V>, k: Kernels<V>, mb: nat, done: seq<Op>, op: Op, rest: seq<Op>, env: map<nat, V>,
                             st: Micro<V>, acc: map<nat, V>, finished: bool)
    requires Lawful(k) && WellFormed(p) && p.fw + p.bw == done + [op] + rest
    requires Agrees(p, mb, done, env, st) && NaiveOp(p, k, mb, op, env).Some?
    ensures RunOp(p, k, mb, op, finished, st, acc).Some?
    ensures Agrees(p, mb, done + [op], NaiveOp(p, k, mb, op, env).value, RunOp(p, k, mb, op, finished, st, acc).value.0)
    ensures Runs(p, mb, op) ==>
              (Look(p, env, op.ins).Some?
               && RunOp(p, k, mb, op, finished, st, acc).value.1
                  == AccAll(p, k, acc, op.outs, k.compute(op, mb, Look(p, env, op.ins).value)))
    ensures !Runs(p, mb, op) ==> RunOp(p, k, mb, op, finished, st, acc).value.1 == acc
  {
    assert (done + [op])[..|done|] == done && (done + [op])[|done|] == op;
    if Runs(p, mb, op) {
      var all := p.fw + p.bw;
      EnoughDegrees(p, mb, done, op, rest, st);
      PlainInputs(p, mb, done, op, rest);
      TakeAllAgrees(p, mb, all, env, st, op.ins);
      var (xs, next) := TakeAll(p, mb, st, op.ins).value;
      if mb == 0 { FreshOutputs(p, done, op, rest, env, st, next); }
      PutAllAgrees(p, k, mb, all, env, next, acc, op.outs, k.compute(op, mb, xs), finished);
      PutAllAccumulates(p, k, next, acc, op.outs, k.compute(op, mb, xs), finished);
      var after := PutAll(p, k, next, acc, op.outs, k.compute(op, mb, xs), finished).0;
      hide Lawful, WellFormed, Runs, TakeAll, PutAll, Holds, Look;
      CountedNext(p, mb, done, op, st, after);
      if mb == 0 { TracedNext(p, done, op, env, k.compute(op, mb, xs)); }
    } else {
      SkipAgrees(p, mb, done, op, env, st);
    }
  }

  /** How the accumulators change when an operation stores its outputs. */
  function AccAll<V>(p: Plan<V>, k: Kernels<V>, acc: map<nat, V>, ts: seq<nat>, vs: seq<V>): map<nat, V>
    requires |ts| == |vs|
  {
    if ts == [] then acc else
      var n := |ts| - 1;
      var acc' := AccAll(p, k, acc, ts[..n], vs[..n]);
      if ts[n] in p.accumulated then acc'[ts[n] := Plus(k, acc', ts[n], vs[n])] else acc'
  }

  lemma {:induction false} PutAllAccumulates<V>(p: Plan<V>, k: Kernels<V>, st: Micro<V>, acc: map<nat, V>,
                                                ts: seq<nat>, vs: seq<V>, finished: bool)
    requires |ts| == |vs|
    ensures PutAll(p, k, st, acc, ts, vs, finished).1 == AccAll(p, k, acc, ts, vs)
  {
    if ts != [] {
      PutAllAccumulates(p, k, st, acc, ts[..|ts| - 1], vs[..|ts| - 1], finished);
    }
  }

  lemma EnoughDegrees<V>(p: Plan<V>, mb: nat, done: seq<Op>, op: Op, rest: seq<Op>, st: Micro<V>)
    requires p.fw + p.bw == done + [op] + rest && Counted(p, mb, p.fw + p.bw, done, st)
    ensures forall t <- op.ins :: Degree(st.degrees, t) >= Occurs(op.ins, t)
  {
    forall t | t in op.ins ensures Degree(st.degrees, t) >= Occurs(op.ins, t) {
      UsesAppend(done + [op], rest, t);
      assert (done + [op])[..|done|] == done && (done + [op])[|done|] == op;
      UsedAtMostUses(p, mb, done, t);
    }
  }

  lemma PlainInputs<V>(p: Plan<V>, mb: nat, done: seq<Op>, op: Op, rest: seq<Op>)
    requires WellFormed(p) && p.fw + p.bw == done + [op] + rest && Runs(p, mb, op)
    ensures forall t <- op.ins :: t in p.preserved || t !in p.accumulated
  {
    assert (p.fw + p.bw)[|done|] == op;
    RunsLater(p, mb, op);
    assert ReadsPlain(p, op);
  }

  lemma {:induction false} OutsAppend(a: seq<Op>, b: seq<Op>)
    ensures Outs(a + b) == Outs(a) + Outs(b)
  {
    if b == [] {
      assert a + b == a;
    } else {
      assert (a + b)[..|a + b| - 1] == a + b[..|b| - 1];
      OutsAppend(a, b[..|b| - 1]);
    }
  }

  lemma OutsSplit(done: seq<Op>, op: Op, rest: seq<Op>)
    ensures Outs(done + [op] + rest) == Outs(done) + op.outs + Outs(rest)
  {
    OutsAppend(done + [op], rest);
    OutsAppend(done, [op]);
    assert Outs([op]) == op.outs by { assert [op][..0] == []; }
  }

  lemma InOuts(ops: seq<Op>, op: Op, t: nat)
    requires op in ops && t in op.outs
    ensures t in Outs(ops)
  {
    var i := IndexOf(ops, op);
    assert ops == ops[..i] + [op] + ops[i + 1..];
    OutsSplit(ops[..i], op, ops[i + 1..]);
  }

  /** Single assignment: an operation's outputs are no outputs of the operations before it. */
  lemma OutsNew<V>(p: Plan<V>, done: seq<Op>, op: Op, rest: seq<Op>, t: nat)
    requires NoDup(Outs(p.fw + p.bw)) && p.fw + p.bw == done + [op] + rest && t in op.outs
    ensures t !in Outs(done)
    ensures NoDup(op.outs)
  {
    OutsSplit(done, op, rest);
    hide Outs;
    NoDupMiddle(Outs(done), op.outs, Outs(rest), t);
  }

  lemma FreshOutputs<V>(
    p: Plan<V>, done: seq<Op>, op: Op, rest: seq<Op>, env: map<nat, V>, st: Micro<V>, next: Micro<V>)
    requires WellFormed(p) && p.fw + p.bw == done + [op] + rest
    requires Counted(p, 0, p.fw + p.bw, done, st) && Traced(p, done, env) && Look(p, env, op.ins).Some?
    requires forall u: nat ::
               Degree(next.degrees, u) == Degree(st.degrees, u) - if u in p.preserved then 0 else Occurs(op.ins, u)
    ensures Fresh(p, p.fw + p.bw, next.degrees, op.outs)
  {
    forall t | t in op.outs && t in p.transfers ensures Degree(next.degrees, t) == Uses(p.fw + p.bw, t) {
      OutsNew(p, done, op, rest, t);
      assert t !in env;
      assert Used(p, 0, done, t) == 0;
      if t !in p.preserved {
        assert t !in op.ins;
      }
    }
  }

  lemma CountedNext<V>(p: Plan<V>, mb: nat, done: seq<Op>, op: Op, st: Micro<V>, after: Micro<V>)
    requires Counted(p, mb, p.fw + p.bw, done, st) && Runs(p, mb, op)
    requires forall u: nat ::
               Degree(after.degrees, u) == Degree(st.degrees, u) - if u in p.preserved then 0 else Occurs(op.ins, u)
    ensures Counted(p, mb, p.fw + p.bw, done + [op], after)
  {
    assert (done + [op])[..|done|] == done;
  }

  lemma TracedNext<V>(p: Plan<V>, done: seq<Op>, op: Op, env: map<nat, V>, vs: seq<V>)
    requires Traced(p, done, env) && |vs| == |op.outs| && Look(p, env, op.ins).Some?
    ensures Traced(p, done + [op], Bind(env, op.outs, vs))
  {
    assert (done + [op])[..|done|] == done;
    OutsAppend(done, [op]);
    assert [op][..0] == [];
    assert Outs([op]) == op.outs;
  }

  lemma SkipAgrees<V>(p: Plan<V>, mb: nat, done: seq<Op>, op: Op, env: map<nat, V>, st: Micro<V>)
    requires Agrees(p, mb, done, env, st) && !Runs(p, mb, op)
    ensures Agrees(p, mb, done + [op], env, st)
  {
    assert (done + [op])[..|done|] == done;
    OutsAppend(done, [op]);
    forall t: nat ensures Used(p, mb, done + [op], t) == Used(p, mb, done, t) { }
  }

  /**
   Early release refines naive evaluation over a whole pass: whenever the interpreter that
   never erases gets through, so does the reference-counting one, and what it still holds is
   the same.
   */
  lemma {:induction false} RunTopoAgrees<V(!new)>(
    p: Plan<V>, k: Kernels<V>, mb: nat, done: seq<Op>, ops: seq<Op>, rest: seq<Op>, env: map<nat, V>,
    st: Micro<V>, acc: map<nat, V>, finished: bool)
    requires Lawful(k) && WellFormed(p) && p.fw + p.bw == done + ops + rest
    requires Agrees(p, mb, done, env, st) && NaiveTopo(p, k, mb, ops, env).Some?
    ensures RunTopo(p, k, mb, ops, finished, st, acc).Some?
    ensures Agrees(
              p, mb, done + ops, NaiveTopo(p, k, mb, ops, env).value, RunTopo(p, k, mb, ops, finished, st, acc).value.0)
    decreases |ops|
  {
    if ops == [] {
      assert done + ops == done;
    } else {
      var n := |ops| - 1;
      assert done + ops[..n] + ([ops[n]] + rest) == done + ops + rest;
      hide Agrees, WellFormed, Lawful, RunOp, NaiveOp;
      RunTopoAgrees(p, k, mb, done, ops[..n], [ops[n]] + rest, env, st, acc, finished);
      var (st', acc') := RunTopo(p, k, mb, ops[..n], finished, st, acc).value;
      assert done + ops[..n] + [ops[n]] + rest == done + ops + rest;
      var env' := NaiveTopo(p, k, mb, ops[..n], env).value;
      RunOpAgrees(p, k, mb, done + ops[..n], ops[n], rest, env', st', acc', finished);
      assert done + ops[..n] + [ops[n]] == done + ops;
    }
  }
}
