/**
 The cache of executable graphs and of their shape plans: looking one up, making a graph,
 deducing a further plan, and the run that chooses one plan for every micro batch.

 Every executable graph has two pools of shape plans, one for the tensors of the defining graph
 and one for their executable versions; the same index means the same plan in both.
 */
module PlanCaches {
  import opened Collections
  import opened ShapePlans
  import opened ExtraShapes

  /** `extras` are the operations recorded with the executable graph that the defining graph does not have. */
  datatype ExecPlan = ExecPlan(
    compute: nat, optimize: nat, fetches: seq<nat>,
    topo: seq<Op>, infer: Infer, mapping: map<nat, nat>, extras: seq<Op>,
    shapePlans: seq<ShapePlan>, execShapePlans: seq<ShapePlan>, active: seq<nat>)

  // ---------- the two pools of one executable graph ----------

  /** The executable graph's plan `e` gives each tensor's executable version the shape that `p` gives the tensor. */
  ghost predicate Aligned(mapping: map<nat, nat>, p: ShapePlan, e: ShapePlan) {
    forall t | t in mapping :: t in p && mapping[t] in e && e[mapping[t]] == p[t]
  }

  ghost predicate ImageOf(mapping: map<nat, nat>, p: ShapePlan, image: ShapePlan) {
    image.Keys == mapping.Values && Aligned(mapping, p, image)
  }

  /** The plan `e` is the image of `p` under the mapping, extended by the recorded operations. */
  ghost predicate Executes(mapping: map<nat, nat>, extras: seq<Op>, infer: Infer, p: ShapePlan, e: ShapePlan) {
    Aligned(mapping, p, e) && exists image :: ImageOf(mapping, p, image) && Extended(extras, infer, image) == Some(e)
  }

  ghost predicate OneToOne(mapping: map<nat, nat>, next: nat) {
    && (forall t | t in mapping :: mapping[t] < next)
    && (forall t, u | t in mapping && u in mapping && mapping[t] == mapping[u] :: t == u)
  }

  /** A plan whose shapes are inferred but for the tensors in `taken`. */
  ghost predicate PlanOk(x: ExecPlan, p: ShapePlan, taken: set<nat>) {
    Outputs(x.topo) <= p.Keys && AsInferred(x.topo, Outputs(x.topo) - taken, x.infer, p)
  }

  ghost predicate PoolOk(x: ExecPlan, taken: seq<set<nat>>, next: nat) {
    && Proper(x.topo) && x.mapping.Keys == Outputs(x.topo) && OneToOne(x.mapping, next)
    && Supplied(x.extras, x.mapping.Values) && SingleMakers(x.extras, x.mapping.Values)
    && |x.shapePlans| == |x.execShapePlans| == |taken|
    && (forall i | 0 <= i < |taken| :: PlanOk(x, x.shapePlans[i], taken[i]))
    && (forall i | 0 <= i < |taken| :: Executes(x.mapping, x.extras, x.infer, x.shapePlans[i], x.execShapePlans[i]))
  }

  /** Every plan was made for the fed tensors `keys`. */
  ghost predicate MadeFor(x: ExecPlan, taken: seq<set<nat>>, keys: set<nat>) {
    forall i | 0 <= i < |taken| :: taken[i] == keys || taken[i] == Fed(x.topo, keys)
  }

  /** No plan serves the feed of a later one. */
  ghost predicate NoRepeats(x: ExecPlan, need: set<nat>) {
    forall i, j | 0 <= i < j < |x.shapePlans| :: !Matches(x.shapePlans[i], need, x.shapePlans[j])
  }

  ghost predicate Grown(x: ExecPlan, y: ExecPlan) {
    && y == x.(shapePlans := y.shapePlans, execShapePlans := y.execShapePlans, active := y.active)
    && |x.shapePlans| <= |y.shapePlans| && y.shapePlans[..|x.shapePlans|] == x.shapePlans
    && |x.execShapePlans| <= |y.execShapePlans| && y.execShapePlans[..|x.execShapePlans|] == x.execShapePlans
  }

  // ---------- looking plans up ----------

  /** The graph was made for the same strategies, fetches no more than this run, and has all its fetches. */
  predicate Serves(x: ExecPlan, fetches: seq<nat>, compute: nat, optimize: nat) {
    && x.compute == compute && x.optimize == optimize && |x.fetches| <= |fetches|
    && forall i | 0 <= i < |fetches| :: fetches[i] in x.fetches
  }

  /** When nothing is fetched twice, a serving graph fetches the same tensors. */
  lemma ServesSameFetches(x: ExecPlan, fetches: seq<nat>, compute: nat, optimize: nat)
    requires Serves(x, fetches, compute, optimize) && NoDup(fetches) && NoDup(x.fetches)
    ensures forall t :: t in fetches <==> t in x.fetches
  {
    ServesAll(fetches, x.fetches);
  }

  lemma {:induction false} ServesAll(a: seq<nat>, b: seq<nat>)
    requires NoDup(a) && NoDup(b) && |b| <= |a| && forall i | 0 <= i < |a| :: a[i] in b
    ensures forall t :: t in a <==> t in b
  {
    forall t | t in a ensures t in b {
      var i := IndexOf(a, t);
    }
    if |a| > 0 {
      var t := a[|a| - 1];
      var k := IndexOf(b, t);
      var rest := b[..k] + b[k + 1..];
      forall i | 0 <= i < |a| - 1 ensures a[i] in rest {
        assert a[i] in b && a[i] != t;
        var j := IndexOf(b, a[i]);
        assert if j < k then rest[j] == a[i] else rest[j - 1] == a[i];
      }
      ServesAll(a[..|a| - 1], rest);
      assert forall u :: u in b <==> u in rest || u == t by { assert b == b[..k] + [t] + b[k + 1..]; }
      assert a == a[..|a| - 1] + [t];
    }
  }

  /** Some plan of the pool serves the feed. */
  ghost predicate MatchedBy(plans: seq<ShapePlan>, need: set<nat>, fed: ShapePlan) {
    exists i | 0 <= i < |plans| :: Matches(plans[i], need, fed)
  }

  ghost predicate SomeServes(pool: seq<ExecPlan>, fetches: seq<nat>, compute: nat, optimize: nat) {
    exists i | 0 <= i < |pool| :: Serves(pool[i], fetches, compute, optimize)
  }

  ghost predicate FirstServing(pool: seq<ExecPlan>, fetches: seq<nat>, compute: nat, optimize: nat, a: nat) {
    && a < |pool| && Serves(pool[a], fetches, compute, optimize)
    && forall i | 0 <= i < a :: !Serves(pool[i], fetches, compute, optimize)
  }

  /** A new graph can be made, and every micro batch finds its first plan, or further ones can be deduced. */
  ghost predicate NewAnswerable(topo: seq<Op>, infer: Infer, keys: set<nat>, need: set<nat>, shapes: seq<ShapePlan>)
    requires |shapes| > 0
  {
    && FirstOps(topo, keys, shapes[0], infer).Some?
    && Answerable(topo, [FirstOps(topo, keys, shapes[0], infer).value], keys, need, shapes)
  }

  /** Every micro batch finds a plan, or further plans can be deduced. */
  ghost predicate Answerable(
    topo: seq<Op>, plans: seq<ShapePlan>, keys: set<nat>, need: set<nat>, shapes: seq<ShapePlan>) {
    Deducible(topo, keys) || forall j | 0 <= j < |shapes| :: MatchedBy(plans, need, shapes[j])
  }

  method FindExecPlan(pool: seq<ExecPlan>, fetches: seq<nat>, compute: nat, optimize: nat) returns (found: bool, k: nat)
    ensures found ==> k < |pool| && Serves(pool[k], fetches, compute, optimize)
                      && forall i | 0 <= i < k :: !Serves(pool[i], fetches, compute, optimize)
    ensures !found ==> forall i | 0 <= i < |pool| :: !Serves(pool[i], fetches, compute, optimize)
    ensures found ==> pool[k].compute == compute && pool[k].optimize == optimize
                      && |pool[k].fetches| <= |fetches| && forall t <- fetches :: t in pool[k].fetches
    ensures !found ==> forall i | 0 <= i < |pool| && pool[i].compute == compute && pool[i].optimize == optimize ::
                         |pool[i].fetches| > |fetches| || exists t <- fetches :: t !in pool[i].fetches
  {
    for i := 0 to |pool|
      invariant forall j | 0 <= j < i :: !Serves(pool[j], fetches, compute, optimize)
    {
      var matched := pool[i].compute == compute && pool[i].optimize == optimize;
      if |fetches| < |pool[i].fetches| {
        matched := false;
      }
      ghost var before := matched;
      for j := 0 to |fetches|
        invariant matched == before
        invariant forall n | 0 <= n < j :: fetches[n] in pool[i].fetches
      {
        if fetches[j] !in pool[i].fetches {
          matched := false;
          break;
        }
      }
      if matched {
        return true, i;
      }
    }
    return false, 0;
  }

  method Matched(p: ShapePlan, need: set<nat>, fed: ShapePlan) returns (ok: bool)
    ensures ok <==> Matches(p, need, fed)
  {
    var todo := need;
    while todo != {}
      invariant todo <= need && forall t | t in need - todo :: t in p && p[t] == ShapeOf(fed, t)
    {
      var t :| t in todo;
      if t !in p || p[t] != ShapeOf(fed, t) {
        return false;
      }
      todo := todo - {t};
    }
    return true;
  }

  method FindShapePlan(pool: seq<ShapePlan>, need: set<nat>, fed: ShapePlan) returns (found: bool, k: nat)
    ensures found ==> k < |pool| && Matches(pool[k], need, fed) && forall i | 0 <= i < k :: !Matches(pool[i], need, fed)
    ensures !found ==> forall i | 0 <= i < |pool| :: !Matches(pool[i], need, fed)
  {
    for i := 0 to |pool|
      invariant forall j | 0 <= j < i :: !Matches(pool[j], need, fed)
    {
      var ok := Matched(pool[i], need, fed);
      if ok {
        return true, i;
      }
    }
    return false, 0;
  }

  // ---------- deducing a plan ----------

  /** Takes outputs from the feed up to the first one that is not fed. */
  method TakeFed(op: Op, keys: set<nat>, fed: ShapePlan, p: ShapePlan) returns (n: nat, q: ShapePlan)
    ensures n == Lead(op.outputs, keys) && q == Take(op.outputs[..n], fed, p)
  {
    hide Take, Lead;
    q := p;
    n := 0;
    assert q == Take(op.outputs[..n], fed, p) by { TakeNone(op.outputs, fed, p); }
    while n < |op.outputs| && op.outputs[n] in keys
      invariant n <= |op.outputs| && (forall i | 0 <= i < n :: op.outputs[i] in keys)
      invariant q == Take(op.outputs[..n], fed, p)
    {
      TakeNext(op.outputs, fed, p, n);
      q := q[op.outputs[n] := ShapeOf(fed, op.outputs[n])];
      n := n + 1;
    }
    LeadIs(op.outputs, keys, n);
  }

  lemma TakeNext(outputs: seq<nat>, fed: ShapePlan, p: ShapePlan, n: nat)
    requires n < |outputs|
    ensures Take(outputs[..n + 1], fed, p) == Take(outputs[..n], fed, p)[outputs[n] := ShapeOf(fed, outputs[n])]
  {
    PrefixNext(outputs, n);
  }

  lemma TakeNone(outputs: seq<nat>, fed: ShapePlan, p: ShapePlan)
    ensures Take(outputs[..0], fed, p) == p
  {
    assert outputs[..0] == [];
  }

  lemma PrefixNext(outputs: seq<nat>, n: nat)
    requires n < |outputs|
    ensures forall t :: t in outputs[..n + 1] <==> t in outputs[..n] || t == outputs[n]
  {
    assert outputs[..n + 1] == outputs[..n] + [outputs[n]];
  }

  method ReadShapes(op: Op, p: ShapePlan) returns (ok: bool, shapes: seq<Shape>)
    ensures ok <==> Known(op, p)
    ensures ok ==> shapes == InputShapes(op, p)
  {
    shapes := [];
    for i := 0 to |op.inputs|
      invariant |shapes| == i && (forall j | 0 <= j < i :: op.inputs[j] in p && shapes[j] == p[op.inputs[j]])
    {
      if op.inputs[i] !in p {
        return false, shapes;
      }
      shapes := shapes + [p[op.inputs[i]]];
    }
    return true, shapes;
  }

  /** Adds the inferred shape of every output; an error when one has a shape already. */
  method InferAll(op: Op, infer: Infer, p: ShapePlan, shapes: seq<Shape>) returns (ok: bool, q: ShapePlan)
    requires NoDup(op.outputs) && shapes == InputShapes(op, p)
    ensures ok <==> forall t | t in op.outputs :: t !in p
    ensures ok ==> q == p + Inferred(op, infer, p)
  {
    hide InferredSome;
    q := p;
    InferStart(op, infer, p);
    for k := 0 to |op.outputs|
      invariant InferredSome(op, infer, p, q, k)
    {
      InferNext(op, infer, p, q, k);
      if op.outputs[k] in q {
        return false, q;
      }
      q := q[op.outputs[k] := infer(op, k, shapes)];
    }
    InferredEvery(op, infer, p, q);
    return true, q;
  }

  ghost predicate InferredSome(op: Op, infer: Infer, p: ShapePlan, q: ShapePlan, n: nat)
    requires n <= |op.outputs|
  {
    && (forall t :: t in q <==> t in p || t in op.outputs[..n])
    && (forall t | t in p :: q[t] == p[t])
    && (forall k | 0 <= k < n ::
          op.outputs[k] !in p && op.outputs[k] in q && q[op.outputs[k]] == infer(op, k, InputShapes(op, p)))
  }

  lemma InferStart(op: Op, infer: Infer, p: ShapePlan)
    ensures InferredSome(op, infer, p, p, 0)
  {
  }

  lemma InferNext(op: Op, infer: Infer, p: ShapePlan, q: ShapePlan, k: nat)
    requires NoDup(op.outputs) && k < |op.outputs| && InferredSome(op, infer, p, q, k)
    ensures op.outputs[k] in op.outputs && (op.outputs[k] in q ==> op.outputs[k] in p)
    ensures op.outputs[k] !in q ==>
              InferredSome(op, infer, p, q[op.outputs[k] := infer(op, k, InputShapes(op, p))], k + 1)
  {
    hide InputShapes;
    PrefixNext(op.outputs, k);
  }

  lemma InferredEvery(op: Op, infer: Infer, p: ShapePlan, q: ShapePlan)
    requires NoDup(op.outputs) && InferredSome(op, infer, p, q, |op.outputs|)
    ensures forall t | t in op.outputs :: t !in p
    ensures q == p + Inferred(op, infer, p)
  {
    hide Inferred, InputShapes;
    InferredAt(op, infer, p);
    assert op.outputs[..|op.outputs|] == op.outputs;
    forall t | t in op.outputs ensures t !in p && t in q && q[t] == Inferred(op, infer, p)[t] {
      var k := IndexOf(op.outputs, t);
      assert op.outputs[k] == t;
    }
    assert q == p + Inferred(op, infer, p);
  }

  /** One operation: take its fed outputs, or infer all its outputs from its inputs. */
  method DeduceOne(op: Op, keys: set<nat>, fed: ShapePlan, infer: Infer, p: ShapePlan) returns (r: Option<ShapePlan>)
    requires NoDup(op.outputs)
    ensures r == DeduceOp(op, keys, fed, infer, p)
  {
    var n, q := TakeFed(op, keys, fed, p);
    if (n == |op.outputs| && n > 0) || op.placeholder {
      return Some(q);
    }
    var known, shapes := ReadShapes(op, q);
    if !known {
      return None;
    }
    var ok, all := InferAll(op, infer, q, shapes);
    r := if ok then Some(all) else None;
  }

  lemma {:induction false} LeadIs(outputs: seq<nat>, keys: set<nat>, n: nat)
    requires n <= |outputs| && (forall i | 0 <= i < n :: outputs[i] in keys)
    requires n < |outputs| ==> outputs[n] !in keys
    ensures Lead(outputs, keys) == n
  {
    if n > 0 {
      LeadIs(outputs[1..], keys, n - 1);
    }
  }

  /** The whole order, and then the executable graph's plan by way of the mapping and the recorded operations. */
  method DeducePlans(x: ExecPlan, keys: set<nat>, fed: ShapePlan) returns (ok: bool, p: ShapePlan, e: ShapePlan)
    requires Proper(x.topo) && x.mapping.Keys == Outputs(x.topo)
    requires forall t, u | t in x.mapping && u in x.mapping && x.mapping[t] == x.mapping[u] :: t == u
    ensures ok <==> Deduce(x.topo, keys, fed, x.infer).Some? && Supplied(x.extras, x.mapping.Values)
    ensures ok ==> p == Deduce(x.topo, keys, fed, x.infer).value && Executes(x.mapping, x.extras, x.infer, p, e)
  {
    hide *;
    DeduceMeans(x.topo, keys, fed, x.infer);
    ok, p := DeduceAll(x.topo, keys, fed, x.infer);
    e := map[];
    if !ok {
      return;
    }
    var image;
    ok, image := ToExecPlan(x.mapping, p);
    if ok {
      ImageKeys(x.mapping, p, image);
      ok, e := ExtendPlan(x.extras, x.infer, image);
      if ok { ExecutesFrom(x.mapping, x.extras, x.infer, p, image, e); }
    }
  }

  lemma DeduceMeans(topo: seq<Op>, keys: set<nat>, fed: ShapePlan, infer: Infer)
    ensures Deduce(topo, keys, fed, infer) ==
            var p := DeduceOps(topo, keys, fed, infer);
            if p.Some? && Outputs(topo) <= p.value.Keys then p else None
  {
    hide DeduceOps, Outputs;
  }

  /** The defining graph's plan, operation by operation. */
  method DeduceAll(topo: seq<Op>, keys: set<nat>, fed: ShapePlan, infer: Infer) returns (ok: bool, p: ShapePlan)
    requires Proper(topo)
    ensures ok <==> DeduceOps(topo, keys, fed, infer).Some?
    ensures ok ==> Some(p) == DeduceOps(topo, keys, fed, infer)
  {
    hide DeduceOp;
    p := map[];
    for i := 0 to |topo|
      invariant DeduceOps(topo[..i], keys, fed, infer) == Some(p)
    {
      ProperPrefix(topo, i + 1);
      assert topo[..i + 1][..i] == topo[..i];
      var r := DeduceOne(topo[i], keys, fed, infer, p);
      if r.None? {
        DeduceStops(topo, i + 1, keys, fed, infer);
        return false, p;
      }
      p := r.value;
    }
    assert topo[..|topo|] == topo;
    ok := true;
  }

  /** The recorded operations leave the shapes of the mapped tensors alone. */
  lemma ExecutesFrom(
    mapping: map<nat, nat>, extras: seq<Op>, infer: Infer, p: ShapePlan, image: ShapePlan, e: ShapePlan)
    requires ImageOf(mapping, p, image) && Extended(extras, infer, image) == Some(e)
    ensures Executes(mapping, extras, infer, p, e)
  {
    hide Extended;
    ExtendedIff(extras, infer, image);
  }

  /** Every tensor recorded with the graph has the shape inferred from its producer's inputs, in every plan. */
  lemma ExtrasInferred(x: ExecPlan, taken: seq<set<nat>>, next: nat, i: nat)
    requires PoolOk(x, taken, next) && i < |taken|
    ensures Aligned(x.mapping, x.shapePlans[i], x.execShapePlans[i])
    ensures AllInferred(x.extras, x.infer, x.execShapePlans[i])
    ensures x.execShapePlans[i].Keys == x.mapping.Values + Outputs(x.extras)
  {
    hide PlanOk, Proper, OneToOne, Supplied, SingleMakers, Extended, OpInferred, Aligned;
    var p, e := x.shapePlans[i], x.execShapePlans[i];
    assert Executes(x.mapping, x.extras, x.infer, p, e);
    var image :| ImageOf(x.mapping, p, image) && Extended(x.extras, x.infer, image) == Some(e);
    ExtendedIff(x.extras, x.infer, image);
    ExtendedInferred(x.extras, x.infer, image, e);
  }

  /** The executable graph's plan for the mapped tensors; an error when one of them has no shape. */
  method ToExecPlan(mapping: map<nat, nat>, p: ShapePlan) returns (ok: bool, e: ShapePlan)
    requires forall t, u | t in mapping && u in mapping && mapping[t] == mapping[u] :: t == u
    ensures ok <==> mapping.Keys <= p.Keys
    ensures ok ==> ImageOf(mapping, p, e)
  {
    e := map[];
    var todo := mapping.Keys;
    while todo != {}
      invariant todo <= mapping.Keys && e.Keys == set t | t in mapping && t !in todo :: mapping[t]
      invariant forall t | t in mapping && t !in todo :: t in p && mapping[t] in e && e[mapping[t]] == p[t]
    {
      var t :| t in todo;
      if t !in p {
        return false, e;
      }
      e := e[mapping[t] := p[t]];
      todo := todo - {t};
    }
    return true, e;
  }

  lemma {:induction false} ProperPrefix(topo: seq<Op>, n: nat)
    requires Proper(topo) && n <= |topo|
    ensures Proper(topo[..n])
    decreases |topo|
  {
    if n == |topo| {
      assert topo[..n] == topo;
    } else {
      ProperPrefix(topo[..|topo| - 1], n);
      assert topo[..|topo| - 1][..n] == topo[..n];
    }
  }

  lemma {:induction false} DeduceStops(topo: seq<Op>, n: nat, keys: set<nat>, fed: ShapePlan, infer: Infer)
    requires n <= |topo| && DeduceOps(topo[..n], keys, fed, infer).None?
    ensures DeduceOps(topo, keys, fed, infer).None?
    decreases |topo|
  {
    if n == |topo| {
      assert topo[..n] == topo;
    } else {
      assert topo[..|topo| - 1][..n] == topo[..n];
      DeduceStops(topo[..|topo| - 1], n, keys, fed, infer);
    }
  }

  // ---------- making an executable graph ----------

  /** What the first `n` outputs of an operation add to the recorded plan. */
  ghost predicate FirstSome(op: Op, infer: Infer, p: ShapePlan, q: ShapePlan, n: nat)
    requires n <= |op.outputs|
  {
    && (forall t :: t in q <==> t in p || t in op.outputs[..n])
    && (forall t | t in p :: q[t] == p[t])
    && (forall k | 0 <= k < n && op.outputs[k] !in p :: q[op.outputs[k]] == infer(op, k, InputShapes(op, p)))
  }

  ghost predicate Mapped(op: Op, was: map<nat, nat>, now: map<nat, nat>, n: nat)
    requires n <= |op.outputs|
  {
    forall t :: t in now <==> t in was || t in op.outputs[..n]
  }

  /** The executable version of one operation: name its outputs, keep fed shapes, infer the others. */
  method MakeExecOp(op: Op, infer: Infer, was: map<nat, nat>, p: ShapePlan, e: ShapePlan, start: nat)
    returns (ok: bool, mapping: map<nat, nat>, q: ShapePlan, exec: ShapePlan, next: nat)
    requires NoDup(op.outputs) && (forall t | t in op.outputs :: t !in was)
    requires OneToOne(was, start) && ImageOf(was, p, e)
    ensures ok <==> forall t | t in op.inputs :: t in was
    ensures ok ==> q == FirstOp(op, infer, p) && mapping.Keys == was.Keys + OutputsOf(op)
    ensures ok ==> OneToOne(mapping, next) && ImageOf(mapping, q, exec)
    ensures start <= next
  {
    hide FirstSome, Mapped, InputShapes, FirstOp, ImageOf, OneToOne;
    mapping, q, exec, next := was, p, e, start;
    for i := 0 to |op.inputs|
      invariant forall j | 0 <= j < i :: op.inputs[j] in was
    {
      if op.inputs[i] !in was {
        return false, mapping, q, exec, next;
      }
    }
    var shapes := InputShapes(op, p);
    FirstStart(op, infer, p, was);
    for k := 0 to |op.outputs|
      invariant FirstSome(op, infer, p, q, k) && Mapped(op, was, mapping, k)
      invariant OneToOne(mapping, next) && ImageOf(mapping, q, exec) && start <= next
    {
      var t := op.outputs[k];
      FirstNext(op, infer, p, q, was, mapping, k, next);
      MapNext(mapping, q, exec, t, next, if t in q then q[t] else infer(op, k, shapes));
      if t !in q {
        q := q[t := infer(op, k, shapes)];
      }
      mapping := mapping[t := next];
      exec := exec[next := q[t]];
      next := next + 1;
    }
    FirstEvery(op, infer, p, q);
    MappedEvery(op, was, mapping);
    return true, mapping, q, exec, next;
  }

  /** One more tensor gets the next number and a shape, its own if it has one. */
  lemma MapNext(mapping: map<nat, nat>, p: ShapePlan, e: ShapePlan, t: nat, next: nat, shape: Shape)
    requires OneToOne(mapping, next) && ImageOf(mapping, p, e) && t !in mapping && (t in p ==> p[t] == shape)
    ensures OneToOne(mapping[t := next], next + 1)
    ensures ImageOf(mapping[t := next], if t in p then p else p[t := shape], e[next := shape])
  {
    ValuesNext(mapping, t, next);
    AlignedNext(mapping, p, e, t, next, shape);
    hide Aligned;
  }

  lemma ValuesNext(mapping: map<nat, nat>, t: nat, next: nat)
    requires t !in mapping
    ensures mapping[t := next].Values == mapping.Values + {next}
  {
    var m := mapping[t := next];
    forall v ensures v in m.Values <==> v in mapping.Values || v == next {
      if v in mapping.Values {
        var u :| u in mapping && mapping[u] == v;
        assert m[u] == v;
      }
      if v == next { assert m[t] == v; }
    }
  }

  lemma AlignedNext(mapping: map<nat, nat>, p: ShapePlan, e: ShapePlan, t: nat, next: nat, shape: Shape)
    requires OneToOne(mapping, next) && Aligned(mapping, p, e) && t !in mapping && (t in p ==> p[t] == shape)
    ensures Aligned(mapping[t := next], if t in p then p else p[t := shape], e[next := shape])
  {
  }

  lemma FirstStart(op: Op, infer: Infer, p: ShapePlan, was: map<nat, nat>)
    ensures FirstSome(op, infer, p, p, 0) && Mapped(op, was, was, 0)
  {
  }

  lemma FirstNext(
    op: Op, infer: Infer, p: ShapePlan, q: ShapePlan, was: map<nat, nat>, now: map<nat, nat>, k: nat, id: nat)
    requires k < |op.outputs| && NoDup(op.outputs) && (forall t | t in op.outputs :: t !in was)
    requires FirstSome(op, infer, p, q, k) && Mapped(op, was, now, k)
    ensures op.outputs[k] !in now
    ensures op.outputs[k] in q ==> FirstSome(op, infer, p, q, k + 1)
    ensures op.outputs[k] !in q ==> FirstSome(op, infer, p, q[op.outputs[k] := infer(op, k, InputShapes(op, p))], k + 1)
    ensures Mapped(op, was, now[op.outputs[k] := id], k + 1)
  {
    hide InputShapes;
    hide FirstSome;
    PrefixNext(op.outputs, k);
    assert op.outputs[k] in op.outputs;
    FirstMore(op, infer, p, q, k);
    assert op.outputs[k] !in op.outputs[..k];
  }

  lemma FirstMore(op: Op, infer: Infer, p: ShapePlan, q: ShapePlan, k: nat)
    requires k < |op.outputs| && NoDup(op.outputs) && FirstSome(op, infer, p, q, k)
    requires forall t :: t in op.outputs[..k + 1] <==> t in op.outputs[..k] || t == op.outputs[k]
    ensures op.outputs[k] in q ==> FirstSome(op, infer, p, q, k + 1)
    ensures op.outputs[k] !in q ==> FirstSome(op, infer, p, q[op.outputs[k] := infer(op, k, InputShapes(op, p))], k + 1)
  {
    hide InputShapes;
    assert op.outputs[k] !in op.outputs[..k];
  }

  lemma FirstEvery(op: Op, infer: Infer, p: ShapePlan, q: ShapePlan)
    requires NoDup(op.outputs) && FirstSome(op, infer, p, q, |op.outputs|)
    ensures q == FirstOp(op, infer, p)
  {
    hide Inferred, InputShapes;
    InferredAt(op, infer, p);
    assert op.outputs[..|op.outputs|] == op.outputs;
    var g := Inferred(op, infer, p);
    forall t | t in q && t !in p ensures q[t] == g[t] {
      var k := IndexOf(op.outputs, t);
      assert op.outputs[k] == t;
    }
    assert q == g + p;
  }

  lemma InferredAt(op: Op, infer: Infer, p: ShapePlan)
    requires NoDup(op.outputs)
    ensures forall t :: t in Inferred(op, infer, p) <==> t in op.outputs
    ensures forall k | 0 <= k < |op.outputs| :: op.outputs[k] in Inferred(op, infer, p)
              && Inferred(op, infer, p)[op.outputs[k]] == infer(op, k, InputShapes(op, p))
  {
    IndexOfEvery(op.outputs);
  }

  lemma MappedEvery(op: Op, was: map<nat, nat>, now: map<nat, nat>)
    requires Mapped(op, was, now, |op.outputs|)
    ensures now.Keys == was.Keys + OutputsOf(op)
  {
    assert op.outputs[..|op.outputs|] == op.outputs;
  }

  method MakeExecGraph(topo: seq<Op>, infer: Infer, keys: set<nat>, fed: ShapePlan, start: nat)
    returns (ok: bool, mapping: map<nat, nat>, p: ShapePlan, e: ShapePlan, next: nat)
    requires Proper(topo)
    ensures ok <==> FirstOps(topo, keys, fed, infer).Some?
    ensures ok ==> p == FirstOps(topo, keys, fed, infer).value && mapping.Keys == Outputs(topo)
    ensures ok ==> OneToOne(mapping, next) && ImageOf(mapping, p, e)
    ensures start <= next
  {
    hide FirstOp, OneToOne, ImageOf, OutputsOf;
    mapping, e, next := map[], map[], start;
    p := map t | t in keys :: ShapeOf(fed, t);
    NothingMapped(p, next);
    for i := 0 to |topo|
      invariant FirstOps(topo[..i], keys, fed, infer) == Some(p) && mapping.Keys == Outputs(topo[..i])
      invariant OneToOne(mapping, next) && ImageOf(mapping, p, e) && start <= next
    {
      ProperPrefix(topo, i + 1);
      assert topo[..i + 1][..i] == topo[..i];
      OutputsAreNew(topo[i], Outputs(topo[..i]));
      ok, mapping, p, e, next := MakeExecOp(topo[i], infer, mapping, p, e, next);
      if !ok {
        FirstStops(topo, i + 1, keys, fed, infer);
        return;
      }
    }
    assert topo[..|topo|] == topo;
    ok := true;
  }

  lemma NothingMapped(p: ShapePlan, next: nat)
    ensures OneToOne(map[], next) && ImageOf(map[], p, map[])
  {
  }

  lemma OutputsAreNew(op: Op, before: set<nat>)
    requires OutputsOf(op) !! before
    ensures forall t | t in op.outputs :: t !in before
  {
    assert forall t | t in op.outputs :: t in OutputsOf(op);
  }

  lemma {:induction false} FirstStops(topo: seq<Op>, n: nat, keys: set<nat>, fed: ShapePlan, infer: Infer)
    requires n <= |topo| && FirstOps(topo[..n], keys, fed, infer).None?
    ensures FirstOps(topo, keys, fed, infer).None?
    decreases |topo|
  {
    if n == |topo| {
      assert topo[..n] == topo;
    } else {
      assert topo[..|topo| - 1][..n] == topo[..n];
      FirstStops(topo[..|topo| - 1], n, keys, fed, infer);
    }
  }

  // ---------- the shapes fed to each micro batch ----------

  /** One array is split along its first axis; otherwise there is one array per micro batch. */
  predicate Feedable(arrays: seq<Shape>, m: nat) {
    || |arrays| == 0 || (|arrays| == m && m > 1)
    || (|arrays| == 1 && |arrays[0]| > 0 && arrays[0][0] >= 0 && (m <= arrays[0][0] || arrays[0][0] == 0))
  }

  function ShapeFor(arrays: seq<Shape>, m: nat, j: nat): Shape
    requires Feedable(arrays, m) && |arrays| > 0 && j < m
  {
    if |arrays| == 1 then arrays[0][0 := Chunks(arrays[0][0], m)[0]] else arrays[j]
  }

  function Need(feeds: map<nat, seq<Shape>>): set<nat> {
    set t | t in feeds && |feeds[t]| > 0
  }

  ghost predicate ShapesOf(feeds: map<nat, seq<Shape>>, m: nat, those: set<nat>, shapes: seq<ShapePlan>) {
    && |shapes| == m
    && (forall t | t in those && t in feeds :: Feedable(feeds[t], m))
    && (forall j | 0 <= j < m :: forall t :: t in shapes[j] <==> t in those && t in feeds && |feeds[t]| > 0)
    && (forall j | 0 <= j < m :: forall t | t in shapes[j] :: IsShapeFor(feeds[t], m, j, shapes[j][t]))
  }

  /** Its own array's shape, or that of the one array but for a first size divided by the count, rounded up. */
  ghost predicate IsShapeFor(arrays: seq<Shape>, m: nat, j: nat, shape: Shape) {
    && (|arrays| > 1 ==> j < |arrays| && shape == arrays[j])
    && (|arrays| == 1 ==> |shape| == |arrays[0]| > 0 && shape[1..] == arrays[0][1..]
                          && IsCeiling(shape[0], arrays[0][0], m))
  }

  lemma ShapeForIs(arrays: seq<Shape>, m: nat, j: nat)
    requires Feedable(arrays, m) && |arrays| > 0 && j < m
    ensures IsShapeFor(arrays, m, j, ShapeFor(arrays, m, j))
  {
    if |arrays| == 1 {
      ChunksOf(arrays[0][0], m);
      hide Chunks, IsCeiling;
      OneChunk(arrays[0][0], m);
    }
  }

  /** The first chunk is rounded up, also where it is the only one. */
  lemma OneChunk(n: nat, m: nat)
    requires m > 0
    ensures |Chunks(n, m)| == m && IsCeiling(Chunks(n, m)[0], n, m)
  {
    hide Chunks, IsCeiling;
    ChunksOf(n, m);
  }

  lemma FeedableMeans(feeds: map<nat, seq<Shape>>, m: nat)
    requires m > 0
    ensures (forall t | t in feeds :: Feedable(feeds[t], m)) <==> forall t | t in feeds ::
              if |feeds[t]| == 1 then
                |feeds[t][0]| > 0 && (feeds[t][0][0] == 0 || (feeds[t][0][0] > 0 && m <= feeds[t][0][0]))
              else |feeds[t]| == 0 || |feeds[t]| == m
  {
  }

  method FeedShapes(feeds: map<nat, seq<Shape>>, m: nat) returns (ok: bool, shapes: seq<ShapePlan>)
    requires m > 0
    ensures ok <==> forall t | t in feeds :: Feedable(feeds[t], m)
    ensures ok <==> forall t | t in feeds ::
              if |feeds[t]| == 1 then
                |feeds[t][0]| > 0 && (feeds[t][0][0] == 0 || (feeds[t][0][0] > 0 && m <= feeds[t][0][0]))
              else |feeds[t]| == 0 || |feeds[t]| == m
    ensures ok ==> ShapesOf(feeds, m, feeds.Keys, shapes)
  {
    FeedableMeans(feeds, m);
    hide Feedable, ShapeFor, IsShapeFor;
    shapes := seq(m, j => map[]);
    var todo := feeds.Keys;
    while todo != {}
      invariant todo <= feeds.Keys && ShapesOf(feeds, m, feeds.Keys - todo, shapes)
    {
      var t :| t in todo;
      if !Feedable(feeds[t], m) {
        return false, shapes;
      }
      if |feeds[t]| > 0 {
        forall j: nat | j < m ensures IsShapeFor(feeds[t], m, j, ShapeFor(feeds[t], m, j)) {
          ShapeForIs(feeds[t], m, j);
        }
        shapes := seq(m, j requires 0 <= j < m => shapes[j][t := ShapeFor(feeds[t], m, j)]);
      }
      todo := todo - {t};
    }
    return true, shapes;
  }

  // ---------- the cache ----------

  /** The operations that making the graph adds, and the first number free after them. */
  type Bridge = (map<nat, nat>, nat) -> (seq<Op>, nat)

  /** They read tensors of the graph or of one another, and make new ones. */
  ghost predicate Bridges(bridge: Bridge) {
    forall mapping, next | OneToOne(mapping, next) ::
      && Supplied(bridge(mapping, next).0, mapping.Values) && SingleMakers(bridge(mapping, next).0, mapping.Values)
      && bridge(mapping, next).1 >= next
  }

  class DefineAndRunGraph {
    var pool: seq<ExecPlan>
    var nextId: nat
    /** For every shape plan, the tensors whose shape was taken from the feed. */
    ghost var taken: seq<seq<set<nat>>>

    ghost predicate Valid()
      reads this
    {
      |taken| == |pool| && forall i | 0 <= i < |pool| :: PoolOk(pool[i], taken[i], nextId)
    }

    constructor ()
      ensures Valid() && pool == []
    {
      pool, nextId, taken := [], 0, [];
    }

    /** Makes an executable graph and its first shape plan. */
    method Instantiate(
      topo: seq<Op>, infer: Infer, bridge: Bridge, keys: set<nat>, fed: ShapePlan, fetches: seq<nat>, compute: nat,
      optimize: nat)
      returns (ok: bool)
      requires Valid() && Proper(topo) && Bridges(bridge)
      modifies this
      ensures Valid()
      ensures ok <==> FirstOps(topo, keys, fed, infer).Some?
      ensures !ok ==> pool == old(pool) && taken == old(taken)
      ensures ok ==> |pool| == |old(pool)| + 1 && pool[..|old(pool)|] == old(pool) && taken == old(taken) + [[keys]]
      ensures ok ==> var x := pool[|old(pool)|];
                x == ExecPlan(
                  compute, optimize, fetches, topo, infer, x.mapping, x.extras,
                  [FirstOps(topo, keys, fed, infer).value], x.execShapePlans, [])
    {
      hide FirstOps, PoolOk, Supplied, SingleMakers, OneToOne, ImageOf, Executes, Extended;
      var mapping, p, image, next;
      ok, mapping, p, image, next := MakeExecGraph(topo, infer, keys, fed, nextId);
      if ok {
        var (extras, later) := bridge(mapping, next);
        ImageKeys(mapping, p, image);
        var done, e := ExtendPlan(extras, infer, image);
        ExecutesFrom(mapping, extras, infer, p, image, e);
        var x := ExecPlan(compute, optimize, fetches, topo, infer, mapping, extras, [p], [e], []);
        MappedLater(mapping, next, later);
        FirstPoolOk(x, keys, fed, p, e, later);
        PoolsLater(pool, taken, nextId, later);
        pool, taken, nextId := pool + [x], taken + [[keys]], later;
      }
    }

    /** Deduces a shape plan for new fed shapes and appends it to both pools of graph `a`. */
    method DeduceShapePlan(a: nat, keys: set<nat>, fed: ShapePlan) returns (ok: bool)
      requires Valid() && a < |pool|
      modifies this
      ensures Valid() && |pool| == |old(pool)|
      ensures ok <==> Deduce(old(pool[a].topo), keys, fed, old(pool[a].infer)).Some?
      ensures !ok ==> pool == old(pool) && taken == old(taken)
      ensures ok ==> taken == old(taken)[a := old(taken[a]) + [Fed(old(pool[a].topo), keys)]]
      ensures ok ==> pool == old(pool)[a := pool[a]] && Grown(old(pool[a]), pool[a])
                     && pool[a].shapePlans ==
                        old(pool[a].shapePlans) + [Deduce(old(pool[a].topo), keys, fed, old(pool[a].infer)).value]
    {
      hide Deduce, PoolOk, Executes, Supplied;
      var x := pool[a];
      PoolOkMeans(x, taken[a], nextId);
      var p, e;
      ok, p, e := DeducePlans(x, keys, fed);
      if ok {
        var y := x.(shapePlans := x.shapePlans + [p], execShapePlans := x.execShapePlans + [e]);
        DeducedPoolOk(x, y, taken[a], keys, fed, p, e, nextId);
        pool := pool[a := y];
        taken := taken[a := taken[a] + [Fed(x.topo, keys)]];
      }
    }

    /** The plan for one micro batch: the first that matches, or else a new last one. */
    method Choose(a: nat, keys: set<nat>, need: set<nat>, fed: ShapePlan) returns (ok: bool, k: nat)
      requires Valid() && a < |pool| && need <= keys
      modifies this
      ensures Valid() && |pool| == |old(pool)| && pool == old(pool)[a := pool[a]] && Grown(old(pool[a]), pool[a])
      ensures Mine(pool, taken, a, keys, need, old(pool), old(taken))
      ensures ok ==> k < |pool[a].shapePlans| && Matches(pool[a].shapePlans[k], need * Fed(pool[a].topo, keys), fed)
      ensures forall i | 0 <= i < |old(pool[a].shapePlans)| && (!ok || i < k) ::
                !Matches(old(pool[a].shapePlans)[i], need, fed)
      ensures ok && k < |old(pool[a].shapePlans)| ==> pool == old(pool) && Matches(pool[a].shapePlans[k], need, fed)
      ensures ok && k >= |old(pool[a].shapePlans)| ==>
                Some(pool[a].shapePlans[k]) == Deduce(old(pool[a].topo), keys, fed, old(pool[a].infer))
      ensures ok <==> MatchedBy(old(pool[a].shapePlans), need, fed) || Deducible(old(pool[a].topo), keys)
      ensures !Deducible(old(pool[a].topo), keys) ==> pool == old(pool)
    {
      hide PoolOk, Deduce, Fed, Deducible, Proper;
      var x := pool[a];
      PoolOkMeans(x, taken[a], nextId);
      DeduceIff(x.topo, keys, fed, x.infer);
      var found;
      found, k := FindShapePlan(x.shapePlans, need, fed);
      SameIsMine(pool, taken, a, keys, need);
      if found {
        MatchesFewer(x.shapePlans[k], need, need * Fed(x.topo, keys), fed);
        return true, k;
      }
      ghost var next := nextId;
      ok := DeduceShapePlan(a, keys, fed);
      if ok {
        k := |pool[a].shapePlans| - 1;
        NewIsMine(old(pool), old(taken), a, pool, taken, keys, need, fed, next);
      }
    }

    /** The indices of the plans are set only if the executable graph has them all. */
    method SetShapePlanList(a: nat, list: seq<nat>) returns (ok: bool)
      requires a < |pool|
      modifies this`pool
      ensures ok <==> forall j | 0 <= j < |list| :: list[j] < |old(pool[a].execShapePlans)|
      ensures pool == if ok then old(pool)[a := old(pool[a]).(active := list)] else old(pool)
    {
      for j := 0 to |list|
        invariant pool == old(pool) && forall i | 0 <= i < j :: list[i] < |pool[a].execShapePlans|
      {
        if list[j] >= |pool[a].execShapePlans| {
          return false;
        }
      }
      pool := pool[a := pool[a].(active := list)];
      return true;
    }

    /** The plans of the micro batches that are still without one. */
    method ChooseAll(
      a: nat, keys: set<nat>, need: set<nat>, shapes: seq<ShapePlan>, first: seq<nat>)
      returns (ok: bool, list: seq<nat>)
      requires Valid() && a < |pool| && need <= keys && |first| <= |shapes|
      requires Chosen(pool[a], first, shapes, need * Fed(pool[a].topo, keys))
      modifies this
      ensures Valid() && |pool| == |old(pool)| && pool == old(pool)[a := pool[a]] && Grown(old(pool[a]), pool[a])
      ensures Mine(pool, taken, a, keys, need, old(pool), old(taken))
      ensures ok ==> |list| == |shapes| && Chosen(pool[a], list, shapes, need * Fed(pool[a].topo, keys))
      ensures ok <==> Deducible(old(pool[a].topo), keys)
                      || forall j | |first| <= j < |shapes| :: MatchedBy(old(pool[a].shapePlans), need, shapes[j])
    {
      hide PoolOk, Fed, Mine, Chosen, Grown, Deduce, Deducible, MatchedBy;
      list := first;
      SameIsMine(pool, taken, a, keys, need);
      GrownSame(pool[a]);
      while |list| < |shapes|
        invariant Valid() && |pool| == |old(pool)| && pool == old(pool)[a := pool[a]] && Grown(old(pool[a]), pool[a])
        invariant Mine(pool, taken, a, keys, need, old(pool), old(taken))
        invariant pool[a].topo == old(pool[a].topo) && pool[a].infer == old(pool[a].infer)
        invariant |first| <= |list| <= |shapes| && Chosen(pool[a], list, shapes, need * Fed(pool[a].topo, keys))
        invariant !Deducible(pool[a].topo, keys) ==>
                    && pool == old(pool)
                    && forall j | |first| <= j < |list| :: MatchedBy(pool[a].shapePlans, need, shapes[j])
      {
        ghost var was, wasTaken := pool, taken;
        var k;
        ok, k := Choose(a, keys, need, shapes[|list|]);
        MineThen(old(pool), old(taken), was, wasTaken, pool, taken, a, keys, need);
        if !ok {
          return;
        }
        ChosenNext(was[a], pool[a], list, k, shapes, need * Fed(pool[a].topo, keys));
        list := list + [k];
      }
      ok := true;
    }

    /** Finds the first graph that serves, or makes one whose first plan answers for the first micro batch. */
    method FindOrMake(
      fetches: seq<nat>, keys: set<nat>, need: set<nat>, shapes: seq<ShapePlan>, compute: nat, optimize: nat,
      topo: seq<Op>, infer: Infer, bridge: Bridge)
      returns (ok: bool, a: nat, first: seq<nat>)
      requires Valid() && |shapes| > 0 && need <= keys && Proper(topo) && Bridges(bridge)
      modifies this
      ensures Valid() && |taken| == |pool| && Kept(pool, taken, keys, need, old(pool), old(taken))
      ensures SomeServes(old(pool), fetches, compute, optimize) ==>
                && ok && pool == old(pool) && taken == old(taken) && first == []
                && FirstServing(pool, fetches, compute, optimize, a)
      ensures !SomeServes(old(pool), fetches, compute, optimize) ==>
                && (ok <==> FirstOps(topo, keys, shapes[0], infer).Some?)
                && (ok ==> a == |old(pool)| < |pool| && pool[a].topo == topo && first == [0]
                           && pool[a].shapePlans == [FirstOps(topo, keys, shapes[0], infer).value]
                           && MatchedBy(pool[a].shapePlans, need, shapes[0]))
      ensures ok ==> a < |pool| && |first| <= |shapes| && Serves(pool[a], fetches, compute, optimize)
                     && Chosen(pool[a], first, shapes, need * Fed(pool[a].topo, keys))
    {
      hide PoolOk, Fed, Chosen, FirstOps, Kept, Serves, MatchedBy, Proper, Bridges;
      KeptSame(pool, taken, keys, need);
      var found;
      found, a := FindExecPlan(pool, fetches, compute, optimize);
      first := [];
      if found {
        NoneChosen(pool[a], shapes, need * Fed(pool[a].topo, keys));
        return true, a, first;
      }
      ok := Instantiate(topo, infer, bridge, keys, shapes[0], fetches, compute, optimize);
      if ok {
        a := |pool| - 1;
        first := [0];
        FirstKept(old(pool), old(taken), pool, taken, keys, need);
        FirstChosen(pool[a], keys, need, shapes);
        OwnServes(pool[a]);
      }
    }

    /** Finds or makes the executable graph of a run and a shape plan for each of its micro batches. */
    method Run(
      fetches: seq<nat>, feeds: map<nat, seq<Shape>>, m: nat, compute: nat, optimize: nat, topo: seq<Op>,
      infer: Infer, bridge: Bridge)
      returns (ok: bool, a: nat, shapes: seq<ShapePlan>)
      requires Valid() && m > 0 && Proper(topo) && Bridges(bridge)
      modifies this
      ensures Valid()
      ensures Kept(pool, taken, feeds.Keys, Need(feeds), old(pool), old(taken))
      ensures !(forall t | t in feeds :: Feedable(feeds[t], m)) ==> !ok
      ensures (forall t | t in feeds :: Feedable(feeds[t], m)) ==> ShapesOf(feeds, m, feeds.Keys, shapes)
      ensures (forall t | t in feeds :: Feedable(feeds[t], m)) && SomeServes(old(pool), fetches, compute, optimize) ==>
                && FirstServing(old(pool), fetches, compute, optimize, a)
                && (ok <==> Answerable(old(pool)[a].topo, old(pool)[a].shapePlans, feeds.Keys, Need(feeds), shapes))
      ensures (forall t | t in feeds :: Feedable(feeds[t], m)) && !SomeServes(old(pool), fetches, compute, optimize) ==>
                |shapes| > 0 && (ok <==> NewAnswerable(topo, infer, feeds.Keys, Need(feeds), shapes))
                && (ok ==> a == |old(pool)|)
      ensures ok ==> a < |pool| && Serves(pool[a], fetches, compute, optimize) && |pool[a].active| == m
      ensures ok ==> Chosen(pool[a], pool[a].active, shapes, Need(feeds) * Fed(pool[a].topo, feeds.Keys))
    {
      hide PoolOk, Fed, Mine, Chosen, Grown, FirstOps, Kept, ShapesOf, Deduce, Feedable, Deducible, Serves, MatchedBy;
      assert Need(feeds) <= feeds.Keys;
      hide Proper, Outputs, Need, OneToOne, Matches, Bridges, Aligned, Executes, Supplied, SingleMakers, Extended;
      a := 0;
      KeptSame(pool, taken, feeds.Keys, Need(feeds));
      ok, shapes := FeedShapes(feeds, m);
      if !ok {
        return;
      }
      ShapesLength(feeds, m, shapes);
      var first;
      ok, a, first := FindOrMake(fetches, feeds.Keys, Need(feeds), shapes, compute, optimize, topo, infer, bridge);
      if !ok {
        return;
      }
      ghost var was, wasTaken := pool, taken;
      var list;
      ok, list := ChooseAll(a, feeds.Keys, Need(feeds), shapes, first);
      KeptGrows(old(pool), old(taken), was, wasTaken, pool, taken, a, feeds.Keys, Need(feeds));
      GrownServes(was[a], pool[a], fetches, compute, optimize);
      if !ok {
        return;
      }
      ChosenExec(pool[a], taken[a], nextId, list, shapes, Need(feeds) * Fed(pool[a].topo, feeds.Keys));
      was, wasTaken := pool, taken;
      var stored := SetShapePlanList(a, list);
      assert stored;
      ActiveKept(was[a], list, taken[a], nextId, shapes, Need(feeds) * Fed(was[a].topo, feeds.Keys));
      ActiveMine(was, pool, taken, a, list, feeds.Keys, Need(feeds));
      GrownServes(was[a], pool[a], fetches, compute, optimize);
      KeptGrows(old(pool), old(taken), was, wasTaken, pool, taken, a, feeds.Keys, Need(feeds));
    }
  }

  /** What a run keeps: every plan, the feed all plans were made for, and that no plan repeats another. */
  ghost predicate Kept(
    pool: seq<ExecPlan>, taken: seq<seq<set<nat>>>, keys: set<nat>, need: set<nat>, was: seq<ExecPlan>,
    wasTaken: seq<seq<set<nat>>>) {
    && |was| == |wasTaken| <= |pool| == |taken|
    && (forall i | 0 <= i < |was| :: Grown(was[i], pool[i]))
    && (Steady(was, wasTaken, keys) ==> Steady(pool, taken, keys))
    && (Unrepeated(was, need) && (forall i | 0 <= i < |pool| :: need <= Fed(pool[i].topo, keys)) ==>
        Unrepeated(pool, need))
  }

  ghost predicate Steady(pool: seq<ExecPlan>, taken: seq<seq<set<nat>>>, keys: set<nat>)
    requires |pool| == |taken|
  {
    forall i | 0 <= i < |pool| :: MadeFor(pool[i], taken[i], keys)
  }

  ghost predicate Unrepeated(pool: seq<ExecPlan>, need: set<nat>) {
    forall i | 0 <= i < |pool| :: NoRepeats(pool[i], need)
  }

  /** Micro batch `j` has a plan with the shapes fed to it. */
  ghost predicate Chosen(x: ExecPlan, list: seq<nat>, shapes: seq<ShapePlan>, those: set<nat>) {
    && |list| <= |shapes|
    && forall j | 0 <= j < |list| :: list[j] < |x.shapePlans| && Matches(x.shapePlans[list[j]], those, shapes[j])
  }

  lemma ChosenNext(x: ExecPlan, y: ExecPlan, list: seq<nat>, k: nat, shapes: seq<ShapePlan>, those: set<nat>)
    requires Chosen(x, list, shapes, those) && Grown(x, y) && |list| < |shapes|
    requires k < |y.shapePlans| && Matches(y.shapePlans[k], those, shapes[|list|])
    ensures Chosen(y, list + [k], shapes, those)
  {
    forall j | 0 <= j < |list| ensures y.shapePlans[list[j]] == x.shapePlans[list[j]] {
      assert y.shapePlans[..|x.shapePlans|][list[j]] == x.shapePlans[list[j]];
    }
  }

  lemma GrownSame(x: ExecPlan)
    ensures Grown(x, x)
  {
  }

  lemma MineThen(p0: seq<ExecPlan>, t0: seq<seq<set<nat>>>, p1: seq<ExecPlan>, t1: seq<seq<set<nat>>>,
                 p2: seq<ExecPlan>, t2: seq<seq<set<nat>>>, a: nat, keys: set<nat>, need: set<nat>)
    requires |p0| == |p1| == |p2| == |t0| == |t1| == |t2| && a < |p0|
    requires Grown(p0[a], p1[a]) && Grown(p1[a], p2[a])
    requires Mine(p1, t1, a, keys, need, p0, t0) && Mine(p2, t2, a, keys, need, p1, t1)
    ensures Mine(p2, t2, a, keys, need, p0, t0) && Grown(p0[a], p2[a]) && p0[a].topo == p2[a].topo
    ensures p0[a].infer == p2[a].infer
  {
    hide MadeFor, NoRepeats, Fed;
    assert p2[a].shapePlans[..|p0[a].shapePlans|] == p1[a].shapePlans[..|p0[a].shapePlans|];
    assert p2[a].execShapePlans[..|p0[a].execShapePlans|] == p1[a].execShapePlans[..|p0[a].execShapePlans|];
  }

  /**
   Growing graph `a` keeps every plan made for the same feed and lets no plan repeat, if all fed tensors
   are in the order.
   */
  ghost predicate Mine(
    pool: seq<ExecPlan>, taken: seq<seq<set<nat>>>, a: nat, keys: set<nat>, need: set<nat>, was: seq<ExecPlan>,
    wasTaken: seq<seq<set<nat>>>)
    requires |pool| == |was| == |taken| == |wasTaken| && a < |pool|
  {
    && taken == wasTaken[a := taken[a]]
    && (MadeFor(was[a], wasTaken[a], keys) ==> MadeFor(pool[a], taken[a], keys))
    && (NoRepeats(was[a], need) && need <= Fed(was[a].topo, keys) ==> NoRepeats(pool[a], need))
  }

  lemma SameIsMine(pool: seq<ExecPlan>, taken: seq<seq<set<nat>>>, a: nat, keys: set<nat>, need: set<nat>)
    requires |pool| == |taken| && a < |pool|
    ensures Mine(pool, taken, a, keys, need, pool, taken)
  {
  }

  lemma MatchesFewer(p: ShapePlan, need: set<nat>, some: set<nat>, fed: ShapePlan)
    requires Matches(p, need, fed) && some <= need
    ensures Matches(p, some, fed)
  {
  }

  lemma NewIsMine(
    was: seq<ExecPlan>, wasTaken: seq<seq<set<nat>>>, a: nat, pool: seq<ExecPlan>, taken: seq<seq<set<nat>>>,
    keys: set<nat>, need: set<nat>, fed: ShapePlan, next: nat)
    requires |pool| == |was| == |taken| == |wasTaken| && a < |pool| && PoolOk(was[a], wasTaken[a], next)
    requires taken == wasTaken[a := wasTaken[a] + [Fed(was[a].topo, keys)]] && Grown(was[a], pool[a])
    requires Deduce(was[a].topo, keys, fed, was[a].infer).Some?
    requires pool[a].shapePlans == was[a].shapePlans + [Deduce(was[a].topo, keys, fed, was[a].infer).value]
    requires forall i | 0 <= i < |was[a].shapePlans| :: !Matches(was[a].shapePlans[i], need, fed)
    ensures Mine(pool, taken, a, keys, need, was, wasTaken)
    ensures Matches(pool[a].shapePlans[|was[a].shapePlans|], need * Fed(was[a].topo, keys), fed)
  {
    hide PlanOk, Executes, Outputs, Proper, OneToOne, Fed, DeduceOps, AsInferred, Supplied, SingleMakers;
    var x, y := was[a], pool[a];
    var q := Deduce(x.topo, keys, fed, x.infer).value;
    DeduceOpsShapes(x.topo, keys, fed, x.infer, q);
    if NoRepeats(x, need) && need <= Fed(x.topo, keys) {
      forall i, j | 0 <= i < j < |y.shapePlans| ensures !Matches(y.shapePlans[i], need, y.shapePlans[j]) {
        if j == |x.shapePlans| {
          MatchesSame(x.shapePlans[i], need, fed, q);
        }
      }
    }
  }

  lemma MatchesSame(p: ShapePlan, need: set<nat>, fed: ShapePlan, q: ShapePlan)
    requires forall t | t in need :: t in q && q[t] == ShapeOf(fed, t)
    ensures Matches(p, need, fed) <==> Matches(p, need, q)
  {
  }

  lemma PoolOkMeans(x: ExecPlan, taken: seq<set<nat>>, next: nat)
    requires PoolOk(x, taken, next)
    ensures Proper(x.topo) && x.mapping.Keys == Outputs(x.topo) && |x.shapePlans| == |x.execShapePlans| == |taken|
    ensures Supplied(x.extras, x.mapping.Values)
    ensures forall t, u | t in x.mapping && u in x.mapping && x.mapping[t] == x.mapping[u] :: t == u
  {
  }

  lemma ImageKeys(mapping: map<nat, nat>, p: ShapePlan, image: ShapePlan)
    requires ImageOf(mapping, p, image)
    ensures image.Keys == mapping.Values
  {
  }

  lemma MappedLater(mapping: map<nat, nat>, next: nat, later: nat)
    requires OneToOne(mapping, next) && next <= later
    ensures OneToOne(mapping, later)
  {
  }

  lemma PoolsLater(pool: seq<ExecPlan>, taken: seq<seq<set<nat>>>, next: nat, later: nat)
    requires |taken| == |pool| && next <= later && forall i | 0 <= i < |pool| :: PoolOk(pool[i], taken[i], next)
    ensures forall i | 0 <= i < |pool| :: PoolOk(pool[i], taken[i], later)
  {
    forall i | 0 <= i < |pool| ensures PoolOk(pool[i], taken[i], later) {
      PoolLater(pool[i], taken[i], next, later);
    }
  }

  lemma PoolLater(x: ExecPlan, taken: seq<set<nat>>, next: nat, later: nat)
    requires PoolOk(x, taken, next) && next <= later
    ensures PoolOk(x, taken, later)
  {
    hide Executes, PlanOk, Outputs, Proper, Supplied, SingleMakers;
  }

  lemma FirstPoolOk(x: ExecPlan, keys: set<nat>, fed: ShapePlan, p: ShapePlan, e: ShapePlan, next: nat)
    requires Proper(x.topo) && x.mapping.Keys == Outputs(x.topo) && OneToOne(x.mapping, next)
    requires Supplied(x.extras, x.mapping.Values) && SingleMakers(x.extras, x.mapping.Values)
    requires Executes(x.mapping, x.extras, x.infer, p, e)
    requires x.shapePlans == [p] && x.execShapePlans == [e] && FirstOps(x.topo, keys, fed, x.infer) == Some(p)
    ensures PoolOk(x, [keys], next)
  {
    hide Executes, Outputs, Proper, OneToOne, FirstOps, AsInferred, Supplied, SingleMakers;
    FirstOpsShapes(x.topo, keys, fed, x.infer, p);
  }

  lemma DeducedPoolOk(
    x: ExecPlan, y: ExecPlan, taken: seq<set<nat>>, keys: set<nat>, fed: ShapePlan, p: ShapePlan, e: ShapePlan,
    next: nat)
    requires PoolOk(x, taken, next) && Executes(x.mapping, x.extras, x.infer, p, e)
    requires Deduce(x.topo, keys, fed, x.infer) == Some(p)
    requires y == x.(shapePlans := x.shapePlans + [p], execShapePlans := x.execShapePlans + [e])
    ensures PoolOk(y, taken + [Fed(x.topo, keys)], next)
  {
    hide Executes, Outputs, Proper, OneToOne, Fed, DeduceOps, AsInferred, Supplied, SingleMakers;
    DeduceOpsShapes(x.topo, keys, fed, x.infer, p);
    assert PlanOk(y, p, Fed(x.topo, keys));
    var all := taken + [Fed(x.topo, keys)];
    forall i | 0 <= i < |all|
      ensures PlanOk(y, y.shapePlans[i], all[i])
      ensures Executes(y.mapping, y.extras, y.infer, y.shapePlans[i], y.execShapePlans[i])
    {
      if i < |taken| {
        assert PlanOk(x, x.shapePlans[i], taken[i]);
      }
    }
  }

  lemma KeptSame(pool: seq<ExecPlan>, taken: seq<seq<set<nat>>>, keys: set<nat>, need: set<nat>)
    requires |pool| == |taken|
    ensures Kept(pool, taken, keys, need, pool, taken)
  {
  }

  lemma ShapesLength(feeds: map<nat, seq<Shape>>, m: nat, shapes: seq<ShapePlan>)
    requires ShapesOf(feeds, m, feeds.Keys, shapes)
    ensures |shapes| == m
  {
  }

  lemma FirstKept(
    was: seq<ExecPlan>, wasTaken: seq<seq<set<nat>>>, pool: seq<ExecPlan>, taken: seq<seq<set<nat>>>,
    keys: set<nat>, need: set<nat>)
    requires |pool| == |was| + 1 && |was| == |wasTaken| && pool[..|was|] == was && taken == wasTaken + [[keys]]
    requires |pool[|was|].shapePlans| == 1
    ensures Kept(pool, taken, keys, need, was, wasTaken)
  {
    hide Fed;
    forall i | 0 <= i < |was| ensures pool[i] == was[i] {
      assert pool[..|was|][i] == was[i];
    }
    if Steady(was, wasTaken, keys) {
      forall i | 0 <= i < |pool| ensures MadeFor(pool[i], taken[i], keys) {
        if i < |was| {
          assert MadeFor(was[i], wasTaken[i], keys);
        }
      }
    }
    if Unrepeated(was, need) {
      forall i | 0 <= i < |pool| ensures NoRepeats(pool[i], need) {
        if i < |was| {
          assert NoRepeats(was[i], need);
        }
      }
    }
  }

  lemma FirstChosen(x: ExecPlan, keys: set<nat>, need: set<nat>, shapes: seq<ShapePlan>)
    requires Proper(x.topo) && |shapes| > 0 && need <= keys && |x.shapePlans| > 0
    requires FirstOps(x.topo, keys, shapes[0], x.infer) == Some(x.shapePlans[0])
    ensures Chosen(x, [0], shapes, need * Fed(x.topo, keys)) && MatchedBy(x.shapePlans, need, shapes[0])
  {
    hide FirstOps, Fed, Outputs, Proper, AsInferred;
    FirstOpsShapes(x.topo, keys, shapes[0], x.infer, x.shapePlans[0]);
  }

  lemma NoneChosen(x: ExecPlan, shapes: seq<ShapePlan>, those: set<nat>)
    ensures Chosen(x, [], shapes, those)
  {
  }

  lemma KeptGrows(p0: seq<ExecPlan>, t0: seq<seq<set<nat>>>, p1: seq<ExecPlan>, t1: seq<seq<set<nat>>>,
                  p2: seq<ExecPlan>, t2: seq<seq<set<nat>>>, a: nat, keys: set<nat>, need: set<nat>)
    requires Kept(p1, t1, keys, need, p0, t0) && |p2| == |p1| == |t2| && a < |p1|
    requires p2 == p1[a := p2[a]] && Grown(p1[a], p2[a]) && Mine(p2, t2, a, keys, need, p1, t1)
    ensures Kept(p2, t2, keys, need, p0, t0)
  {
    hide MadeFor, NoRepeats, Fed, Grown;
    forall i | 0 <= i < |p0| ensures Grown(p0[i], p2[i]) {
      if i == a {
        GrownThen(p0[a], p1[a], p2[a]);
      }
    }
    SameTopo(p1[a], p2[a]);
    if Steady(p1, t1, keys) {
      forall i | 0 <= i < |p2| ensures MadeFor(p2[i], t2[i], keys) {
        assert MadeFor(p1[i], t1[i], keys);
      }
    }
    if Unrepeated(p1, need) && forall i | 0 <= i < |p2| :: need <= Fed(p2[i].topo, keys) {
      forall i | 0 <= i < |p2| ensures NoRepeats(p2[i], need) {
        assert NoRepeats(p1[i], need) && need <= Fed(p2[i].topo, keys);
      }
    }
    if forall i | 0 <= i < |p2| :: need <= Fed(p2[i].topo, keys) {
      forall i | 0 <= i < |p1| ensures need <= Fed(p1[i].topo, keys) {
        assert need <= Fed(p2[i].topo, keys);
      }
    }
  }

  lemma SameTopo(x: ExecPlan, y: ExecPlan)
    requires Grown(x, y)
    ensures x.topo == y.topo
  {
  }

  lemma GrownThen(x: ExecPlan, y: ExecPlan, z: ExecPlan)
    requires Grown(x, y) && Grown(y, z)
    ensures Grown(x, z)
  {
    assert z.shapePlans[..|x.shapePlans|] == y.shapePlans[..|x.shapePlans|];
    assert z.execShapePlans[..|x.execShapePlans|] == y.execShapePlans[..|x.execShapePlans|];
  }

  lemma OwnServes(x: ExecPlan)
    ensures Serves(x, x.fetches, x.compute, x.optimize)
  {
  }

  lemma GrownServes(x: ExecPlan, y: ExecPlan, fetches: seq<nat>, compute: nat, optimize: nat)
    requires Grown(x, y) && Serves(x, fetches, compute, optimize)
    ensures Serves(y, fetches, compute, optimize)
  {
  }

  /** Setting the chosen indices never fails: the pools have the same length. */
  lemma ChosenExec(
    x: ExecPlan, taken: seq<set<nat>>, next: nat, list: seq<nat>, shapes: seq<ShapePlan>, those: set<nat>)
    requires PoolOk(x, taken, next) && Chosen(x, list, shapes, those)
    ensures forall j | 0 <= j < |list| :: list[j] < |x.execShapePlans|
  {
    hide PlanOk, Executes, Matches, Proper, Outputs, OneToOne, Supplied, SingleMakers;
  }

  lemma ActiveKept(
    x: ExecPlan, list: seq<nat>, taken: seq<set<nat>>, next: nat, shapes: seq<ShapePlan>, those: set<nat>)
    requires PoolOk(x, taken, next) && Chosen(x, list, shapes, those)
    ensures PoolOk(x.(active := list), taken, next) && Chosen(x.(active := list), list, shapes, those)
  {
    hide Executes, Matches, Proper, Outputs, OneToOne, AsInferred, Supplied, SingleMakers;
    forall i | 0 <= i < |taken| ensures PlanOk(x.(active := list), x.shapePlans[i], taken[i]) {
      assert PlanOk(x, x.shapePlans[i], taken[i]);
    }
  }

  lemma ActiveMine(
    was: seq<ExecPlan>, pool: seq<ExecPlan>, taken: seq<seq<set<nat>>>, a: nat, list: seq<nat>, keys: set<nat>,
    need: set<nat>)
    requires |was| == |pool| == |taken| && a < |was| && pool == was[a := was[a].(active := list)]
    ensures Grown(was[a], pool[a]) && Mine(pool, taken, a, keys, need, was, taken)
  {
    hide Matches, Fed;
  }

  /**
   When every run feeds the same tensors, each with arrays and each operation's outputs all or
   none, the plan chosen for a micro batch is the one that would be deduced from its own shapes.
   */
  lemma ActiveIsDeduced(
    x: ExecPlan, taken: seq<set<nat>>, next: nat, keys: set<nat>, shapes: seq<ShapePlan>, j: nat, q: ShapePlan)
    requires PoolOk(x, taken, next) && MadeFor(x, taken, keys) && keys * Outputs(x.topo) <= Fed(x.topo, keys)
    requires Chosen(x, x.active, shapes, keys * Fed(x.topo, keys)) && j < |x.active|
    requires Deduce(x.topo, keys, shapes[j], x.infer) == Some(q)
    ensures Agree(x.shapePlans[x.active[j]], q, Outputs(x.topo))
  {
    hide Proper, Outputs, OneToOne, AsInferred, Fed, Deduce, Executes, Supplied, SingleMakers;
    var i := x.active[j];
    FedWithin(x.topo, keys);
    assert keys * Fed(x.topo, keys) == Fed(x.topo, keys);
    assert PlanOk(x, x.shapePlans[i], taken[i]);
    assert taken[i] * Outputs(x.topo) <= Fed(x.topo, keys);
    MatchedIsDeduced(x.topo, keys, shapes[j], x.infer, taken[i], x.shapePlans[i], q);
  }
}
