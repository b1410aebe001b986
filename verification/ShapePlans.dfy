/** Shape plans: the shape of every tensor of a topological order, recorded or deduced. */
module ShapePlans {
  import opened Collections
  import Strides
  import opened MixedRadix

  type Shape = seq<int>
  type ShapePlan = map<nat, Shape>

  datatype Op = Op(inputs: seq<nat>, outputs: seq<nat>, placeholder: bool)

  /** The shape of the given output of an operation whose inputs have the given shapes. */
  type Infer = (Op, nat, seq<Shape>) -> Shape

  // ---------- topological orders ----------

  ghost function Outputs(topo: seq<Op>): set<nat> {
    if topo == [] then {} else Outputs(topo[..|topo| - 1]) + OutputsOf(topo[|topo| - 1])
  }

  function OutputsOf(op: Op): set<nat> {
    set t | t in op.outputs
  }

  /** Every tensor has one producer and is one of its outputs once. */
  ghost predicate Proper(topo: seq<Op>) {
    topo == [] || (
        && Proper(topo[..|topo| - 1])
        && NoDup(topo[|topo| - 1].outputs)
        && OutputsOf(topo[|topo| - 1]) !! Outputs(topo[..|topo| - 1]))
  }

  // ---------- deducing a plan from fed shapes ----------

  /** A fed tensor without an array has the empty shape. */
  function ShapeOf(fed: ShapePlan, t: nat): Shape {
    if t in fed then fed[t] else []
  }

  function InputShapes(op: Op, p: ShapePlan): seq<Shape> {
    seq(|op.inputs|, i requires 0 <= i < |op.inputs| => ShapeOf(p, op.inputs[i]))
  }

  function Known(op: Op, p: ShapePlan): bool {
    forall i | 0 <= i < |op.inputs| :: op.inputs[i] in p
  }

  /** How many of the outputs are fed before the first one that is not. */
  function Lead(outputs: seq<nat>, keys: set<nat>): (n: nat)
    ensures n <= |outputs| && (forall i | 0 <= i < n :: outputs[i] in keys)
    ensures n < |outputs| ==> outputs[n] !in keys
  {
    if outputs == [] || outputs[0] !in keys then 0 else 1 + Lead(outputs[1..], keys)
  }

  predicate Whole(op: Op, keys: set<nat>) {
    |op.outputs| > 0 && Lead(op.outputs, keys) == |op.outputs|
  }

  function Take(outputs: seq<nat>, fed: ShapePlan, p: ShapePlan): ShapePlan {
    p + map t | t in outputs :: ShapeOf(fed, t)
  }

  function Inferred(op: Op, infer: Infer, p: ShapePlan): ShapePlan {
    map t | t in op.outputs :: infer(op, IndexOf(op.outputs, t), InputShapes(op, p))
  }

  function DeduceOp(op: Op, keys: set<nat>, fed: ShapePlan, infer: Infer, p: ShapePlan): Option<ShapePlan> {
    var q := Take(op.outputs[..Lead(op.outputs, keys)], fed, p);
    if Whole(op, keys) || op.placeholder then Some(q)
    else if !Known(op, q) || exists t :: t in op.outputs && t in q then None
    else Some(q + Inferred(op, infer, q))
  }

  function DeduceOps(topo: seq<Op>, keys: set<nat>, fed: ShapePlan, infer: Infer): Option<ShapePlan> {
    if topo == [] then Some(map[]) else
      var p := DeduceOps(topo[..|topo| - 1], keys, fed, infer);
      if p.None? then None else DeduceOp(topo[|topo| - 1], keys, fed, infer, p.value)
  }

  /** A deduced plan; an error when some tensor of the order gets no shape. */
  ghost function Deduce(topo: seq<Op>, keys: set<nat>, fed: ShapePlan, infer: Infer): Option<ShapePlan> {
    var p := DeduceOps(topo, keys, fed, infer);
    if p.Some? && Outputs(topo) <= p.value.Keys then p else None
  }

  // ---------- the plan recorded when the executable graph is made ----------

  function FirstOp(op: Op, infer: Infer, p: ShapePlan): ShapePlan {
    Inferred(op, infer, p) + p
  }

  ghost function FirstOps(topo: seq<Op>, keys: set<nat>, fed: ShapePlan, infer: Infer): Option<ShapePlan> {
    if topo == [] then Some(map t | t in keys :: ShapeOf(fed, t)) else
      var before := topo[..|topo| - 1];
      var op := topo[|topo| - 1];
      var p := FirstOps(before, keys, fed, infer);
      if p.None? || !MadeBefore(op, Outputs(before)) then None else Some(FirstOp(op, infer, p.value))
  }

  // ---------- what a plan means ----------

  /** The tensors whose shape a deduction takes from the feed. */
  ghost function Fed(topo: seq<Op>, keys: set<nat>): set<nat> {
    if topo == [] then {} else
      var op := topo[|topo| - 1];
      Fed(topo[..|topo| - 1], keys) + if Whole(op, keys) then OutputsOf(op) else {}
  }

  /** These are the outputs of the operations all of whose outputs are fed. */
  lemma {:induction false} FedIff(topo: seq<Op>, keys: set<nat>, t: nat)
    ensures t in Fed(topo, keys) <==>
            exists op :: op in topo && t in op.outputs && forall u | u in op.outputs :: u in keys
  {
    if topo != [] {
      var n := |topo| - 1;
      FedIff(topo[..n], keys, t);
      WholeIff(topo[n], keys);
      hide Whole;
      assert forall op :: op in topo <==> op in topo[..n] || op == topo[n];
    }
  }

  ghost predicate AsInferredOp(op: Op, before: set<nat>, those: set<nat>, infer: Infer, p: ShapePlan) {
    forall k | 0 <= k < |op.outputs| && op.outputs[k] in p && op.outputs[k] in those ::
      && (forall t | t in op.inputs :: t in before && t in p)
      && p[op.outputs[k]] == infer(op, k, InputShapes(op, p))
  }

  /** Each of `those` tensors has the shape inferred from the shapes of its producer's inputs. */
  ghost predicate AsInferred(topo: seq<Op>, those: set<nat>, infer: Infer, p: ShapePlan) {
    topo == [] || (
        && AsInferred(topo[..|topo| - 1], those, infer, p)
        && AsInferredOp(topo[|topo| - 1], Outputs(topo[..|topo| - 1]), those, infer, p))
  }

  /**
   For each of `those`, an operation makes it, its inputs have shapes, and the tensor's own is what the operation
   infers from these, in the order of the inputs.
   */
  lemma {:induction false} InferredMeans(
    topo: seq<Op>, those: set<nat>, infer: Infer, p: ShapePlan, op: Op, k: nat, shapes: seq<Shape>)
    requires AsInferred(topo, those, infer, p) && op in topo && k < |op.outputs|
    requires op.outputs[k] in p && op.outputs[k] in those && |shapes| == |op.inputs|
    requires forall i | 0 <= i < |op.inputs| && op.inputs[i] in p :: shapes[i] == p[op.inputs[i]]
    ensures (forall t | t in op.inputs :: t in p) && p[op.outputs[k]] == infer(op, k, shapes)
  {
    var n := |topo| - 1;
    if op == topo[n] {
      assert AsInferredOp(op, Outputs(topo[..n]), those, infer, p);
      assert InputShapes(op, p) == shapes;
    } else {
      assert op in topo[..n];
      InferredMeans(topo[..n], those, infer, p, op, k, shapes);
    }
  }

  ghost predicate Agree(p: ShapePlan, q: ShapePlan, those: set<nat>) {
    forall t | t in those :: t in p && t in q && p[t] == q[t]
  }

  lemma InputsAgree(op: Op, before: set<nat>, p: ShapePlan, q: ShapePlan)
    requires Agree(p, q, before) && forall t | t in op.inputs :: t in before
    ensures InputShapes(op, p) == InputShapes(op, q)
  {
    forall i | 0 <= i < |op.inputs| ensures ShapeOf(p, op.inputs[i]) == ShapeOf(q, op.inputs[i]) {
      assert op.inputs[i] in op.inputs;
    }
  }

  ghost predicate Extends(q: ShapePlan, p: ShapePlan, more: set<nat>) {
    && (forall t | t in p :: t in q && q[t] == p[t])
    && (forall t | t in q :: t in p || t in more)
  }

  /** Giving shapes to further tensors keeps what earlier ones were inferred from. */
  lemma {:induction false} AsInferredGrows(
    topo: seq<Op>, those: set<nat>, infer: Infer, p: ShapePlan, q: ShapePlan, more: set<nat>)
    requires AsInferred(topo, those, infer, p) && Extends(q, p, more) && more !! Outputs(topo)
    ensures AsInferred(topo, those, infer, q)
  {
    if topo != [] {
      var op := topo[|topo| - 1];
      AsInferredGrows(topo[..|topo| - 1], those, infer, p, q, more);
      forall k | 0 <= k < |op.outputs| && op.outputs[k] in q && op.outputs[k] in those
        ensures forall t | t in op.inputs :: t in Outputs(topo[..|topo| - 1]) && t in q
        ensures q[op.outputs[k]] == infer(op, k, InputShapes(op, q))
      {
        assert op.outputs[k] in OutputsOf(op);
        var ins := set t | t in op.inputs;
        InputsAgree(op, ins, p, q);
      }
    }
  }

  /** Taking further tensors out of `those` or splitting them is conjunction. */
  lemma {:induction false} AsInferredUnion(topo: seq<Op>, a: set<nat>, b: set<nat>, infer: Infer, p: ShapePlan)
    ensures AsInferred(topo, a + b, infer, p) <==> (AsInferred(topo, a, infer, p) && AsInferred(topo, b, infer, p))
  {
    if topo != [] {
      AsInferredUnion(topo[..|topo| - 1], a, b, infer, p);
    }
  }

  /** Only outputs of the order matter. */
  lemma {:induction false} AsInferredWithin(topo: seq<Op>, a: set<nat>, b: set<nat>, infer: Infer, p: ShapePlan)
    requires a * Outputs(topo) == b * Outputs(topo)
    ensures AsInferred(topo, a, infer, p) <==> AsInferred(topo, b, infer, p)
  {
    if topo != [] {
      var op := topo[|topo| - 1];
      var before := Outputs(topo[..|topo| - 1]);
      forall t | t in Outputs(topo) ensures t in a <==> t in b {
        assert t in a <==> t in a * Outputs(topo);
      }
      AsInferredWithin(topo[..|topo| - 1], a, b, infer, p);
      forall k | 0 <= k < |op.outputs| ensures op.outputs[k] in a <==> op.outputs[k] in b {
        assert op.outputs[k] in OutputsOf(op);
      }
    }
  }

  lemma PrefixHasFirst(s: seq<nat>, n: nat)
    requires s != [] && n <= |s|
    ensures n > 0 ==> s[0] in s[..n]
  {
    if n > 0 {
      assert s[..n][0] == s[0];
    }
  }

  /** Fed as a whole, or not at all and computed from tensors made before. */
  ghost predicate DeducibleOp(op: Op, before: set<nat>, keys: set<nat>) {
    || (if op.outputs == [] then op.placeholder else forall t | t in op.outputs :: t in keys)
    || (!op.placeholder && (op.outputs == [] || op.outputs[0] !in keys) && MadeBefore(op, before))
  }

  lemma WholeIff(op: Op, keys: set<nat>)
    ensures Whole(op, keys) <==> op.outputs != [] && forall t | t in op.outputs :: t in keys
    ensures Lead(op.outputs, keys) == 0 <==> op.outputs == [] || op.outputs[0] !in keys
  {
    var n := Lead(op.outputs, keys);
    if n < |op.outputs| {
      assert op.outputs[n] in op.outputs;
    }
  }

  ghost predicate MadeBefore(op: Op, before: set<nat>) {
    forall t | t in op.inputs :: t in before
  }

  ghost predicate Deducible(topo: seq<Op>, keys: set<nat>) {
    topo == [] || (
        && Deducible(topo[..|topo| - 1], keys)
        && DeducibleOp(topo[|topo| - 1], Outputs(topo[..|topo| - 1]), keys))
  }

  lemma LeadTaken(op: Op, keys: set<nat>, fed: ShapePlan, p: ShapePlan)
    ensures var n := Lead(op.outputs, keys);
            && (n == |op.outputs| ==> op.outputs[..n] == op.outputs)
            && (n == 0 ==> Take(op.outputs[..n], fed, p) == p)
            && (n > 0 ==> op.outputs[0] in Take(op.outputs[..n], fed, p))
            && (forall t | t in op.outputs[..n] :: t in op.outputs && t in keys)
            && (n < |op.outputs| ==> op.outputs[n] in OutputsOf(op) && op.outputs[n] !in op.outputs[..n])
  {
    var n := Lead(op.outputs, keys);
    if n > 0 {
      PrefixHasFirst(op.outputs, n);
    }
  }

  lemma DeduceOpIff(op: Op, keys: set<nat>, fed: ShapePlan, infer: Infer, p: ShapePlan)
    requires NoDup(op.outputs) && forall t | t in op.outputs :: t !in p
    ensures DeducibleOp(op, p.Keys, keys) <==>
            DeduceOp(op, keys, fed, infer, p).Some? && OutputsOf(op) <= DeduceOp(op, keys, fed, infer, p).value.Keys
    ensures DeducibleOp(op, p.Keys, keys) ==> DeduceOp(op, keys, fed, infer, p).value.Keys == p.Keys + OutputsOf(op)
  {
    hide InputShapes, Known, MadeBefore;
    LeadTaken(op, keys, fed, p);
    KnownIff(op, p);
    WholeIff(op, keys);
    if !Whole(op, keys) && op.outputs != [] {
      assert op.outputs[0] in op.outputs;
    }
  }

  lemma KnownIff(op: Op, p: ShapePlan)
    ensures Known(op, p) <==> MadeBefore(op, p.Keys)
  {
    forall i | 0 <= i < |op.inputs| ensures op.inputs[i] in op.inputs { }
  }

  /** What one deduced operation adds. */
  lemma DeduceOpShapes(op: Op, keys: set<nat>, fed: ShapePlan, infer: Infer, p: ShapePlan, q: ShapePlan)
    requires NoDup(op.outputs) && (forall t | t in op.outputs :: t !in p)
    requires DeduceOp(op, keys, fed, infer, p) == Some(q)
    ensures Extends(q, p, OutputsOf(op))
    ensures Whole(op, keys) ==> forall t | t in op.outputs :: t in q && q[t] == ShapeOf(fed, t)
    ensures !Whole(op, keys) && op.outputs != [] && OutputsOf(op) <= q.Keys ==>
              && Known(op, p)
              && forall k | 0 <= k < |op.outputs| :: q[op.outputs[k]] == infer(op, k, InputShapes(op, p))
  {
    hide *;
    if Whole(op, keys) || op.placeholder {
      TakenShapes(op, keys, fed, infer, p, q);
    } else {
      InferredShapes(op, keys, fed, infer, p, q);
    }
  }

  lemma TakenShapes(op: Op, keys: set<nat>, fed: ShapePlan, infer: Infer, p: ShapePlan, q: ShapePlan)
    requires forall t | t in op.outputs :: t !in p
    requires DeduceOp(op, keys, fed, infer, p) == Some(q) && (Whole(op, keys) || op.placeholder)
    ensures Extends(q, p, OutputsOf(op))
    ensures Whole(op, keys) ==> forall t | t in op.outputs :: t in q && q[t] == ShapeOf(fed, t)
    ensures !Whole(op, keys) && op.outputs != [] ==> !(OutputsOf(op) <= q.Keys)
  {
    hide InputShapes, Known, Inferred, ShapeOf;
    LeadTaken(op, keys, fed, p);
  }

  lemma InferredShapes(op: Op, keys: set<nat>, fed: ShapePlan, infer: Infer, p: ShapePlan, q: ShapePlan)
    requires NoDup(op.outputs) && forall t | t in op.outputs :: t !in p
    requires DeduceOp(op, keys, fed, infer, p) == Some(q) && !Whole(op, keys) && !op.placeholder
    ensures Extends(q, p, OutputsOf(op))
    ensures Known(op, p) && forall k | 0 <= k < |op.outputs| ::
              op.outputs[k] in q && q[op.outputs[k]] == infer(op, k, InputShapes(op, p))
  {
    NothingTaken(op, keys, fed, infer, p);
    hide InputShapes, Known, Whole, Take, Lead;
    IndexOfEvery(op.outputs);
  }

  /** An operation that is neither fed nor a placeholder takes nothing from the feed. */
  lemma NothingTaken(op: Op, keys: set<nat>, fed: ShapePlan, infer: Infer, p: ShapePlan)
    requires !Whole(op, keys) && !op.placeholder && DeduceOp(op, keys, fed, infer, p).Some?
    ensures Known(op, p) && DeduceOp(op, keys, fed, infer, p) == Some(p + Inferred(op, infer, p))
  {
    hide InputShapes, Known, Inferred, ShapeOf;
    LeadTaken(op, keys, fed, p);
    if op.outputs != [] {
      assert op.outputs[0] in op.outputs;
    }
  }

  /** A deduced plan takes the fed tensors from the feed and every other one from its inputs. */
  lemma {:induction false} DeduceOpsShapes(topo: seq<Op>, keys: set<nat>, fed: ShapePlan, infer: Infer, p: ShapePlan)
    requires Proper(topo) && DeduceOps(topo, keys, fed, infer) == Some(p)
    ensures p.Keys <= Outputs(topo)
    ensures forall t | t in Fed(topo, keys) :: t in p && p[t] == ShapeOf(fed, t)
    ensures Outputs(topo) <= p.Keys ==> AsInferred(topo, Outputs(topo) - Fed(topo, keys), infer, p)
  {
    if topo == [] { return; }
    hide *;
    var before, op := topo[..|topo| - 1], topo[|topo| - 1];
    LastDeduced(topo, keys, fed, infer);
    var q := DeduceOps(before, keys, fed, infer).value;
    DeduceOpsShapes(before, keys, fed, infer, q);
    DeduceOpShapes(op, keys, fed, infer, q, p);
    StepKeys(topo, q, p);
    StepFed(topo, keys, fed, before, op, q, p);
    if Outputs(topo) <= p.Keys {
      StepInferred(topo, keys, fed, infer, before, op, q, p);
    }
  }

  lemma LastDeduced(topo: seq<Op>, keys: set<nat>, fed: ShapePlan, infer: Infer)
    requires topo != [] && Proper(topo) && DeduceOps(topo, keys, fed, infer).Some?
    ensures var before, op := topo[..|topo| - 1], topo[|topo| - 1];
            && Proper(before) && NoDup(op.outputs) && (forall t | t in op.outputs :: t !in Outputs(before))
            && DeduceOps(before, keys, fed, infer).Some?
            && DeduceOps(topo, keys, fed, infer)
            == DeduceOp(op, keys, fed, infer, DeduceOps(before, keys, fed, infer).value)
  {
    hide DeduceOp;
  }

  lemma StepKeys(topo: seq<Op>, q: ShapePlan, p: ShapePlan)
    requires topo != [] && q.Keys <= Outputs(topo[..|topo| - 1]) && Extends(p, q, OutputsOf(topo[|topo| - 1]))
    ensures p.Keys <= Outputs(topo)
  {
    hide OutputsOf;
  }

  lemma StepFed(
    topo: seq<Op>, keys: set<nat>, fed: ShapePlan, before: seq<Op>, op: Op, q: ShapePlan, p: ShapePlan)
    requires topo != [] && before == topo[..|topo| - 1] && op == topo[|topo| - 1] && Extends(p, q, OutputsOf(op))
    requires forall t | t in Fed(before, keys) :: t in q && q[t] == ShapeOf(fed, t)
    requires Whole(op, keys) ==> forall t | t in op.outputs :: t in p && p[t] == ShapeOf(fed, t)
    requires forall t | t in op.outputs :: t !in Outputs(before)
    ensures forall t | t in Fed(topo, keys) :: t in p && p[t] == ShapeOf(fed, t)
  {
    hide ShapeOf, Whole, Outputs;
    FedWithin(before, keys);
  }

  lemma StepInferred(
    topo: seq<Op>, keys: set<nat>, fed: ShapePlan, infer: Infer, before: seq<Op>, op: Op, q: ShapePlan, p: ShapePlan)
    requires topo != [] && before == topo[..|topo| - 1] && op == topo[|topo| - 1] && Extends(p, q, OutputsOf(op))
    requires Proper(topo) && Outputs(topo) <= p.Keys && q.Keys <= Outputs(before)
    requires DeduceOp(op, keys, fed, infer, q) == Some(p)
    requires forall t | t in op.outputs :: t !in Outputs(before)
    requires Outputs(before) <= q.Keys ==> AsInferred(before, Outputs(before) - Fed(before, keys), infer, q)
    ensures AsInferred(topo, Outputs(topo) - Fed(topo, keys), infer, p)
  {
    hide DeduceOp, AsInferred, Proper;
    assert forall t | t in op.outputs :: t in OutputsOf(op);
    forall t | t in Outputs(before) ensures t in q {
      assert t in p;
    }
    FedWithin(before, keys);
    AsInferredGrows(before, Outputs(before) - Fed(before, keys), infer, q, p, OutputsOf(op));
    AsInferredWithin(before, Outputs(before) - Fed(before, keys), Outputs(topo) - Fed(topo, keys), infer, p);
    DeducedAsInferred(topo, keys, fed, infer, q, p);
  }

  lemma {:induction false} FedWithin(topo: seq<Op>, keys: set<nat>)
    ensures Fed(topo, keys) <= Outputs(topo) && Fed(topo, keys) <= keys
  {
    if topo != [] {
      var op := topo[|topo| - 1];
      FedWithin(topo[..|topo| - 1], keys);
      forall t | Whole(op, keys) && t in OutputsOf(op) ensures t in keys {
        assert t in op.outputs;
        var i := IndexOf(op.outputs, t);
      }
    }
  }

  lemma DeducedAsInferred(topo: seq<Op>, keys: set<nat>, fed: ShapePlan, infer: Infer, q: ShapePlan, p: ShapePlan)
    requires topo != [] && Proper(topo) && Outputs(topo) <= p.Keys && q.Keys <= Outputs(topo[..|topo| - 1])
    requires DeduceOp(topo[|topo| - 1], keys, fed, infer, q) == Some(p)
    requires AsInferred(topo[..|topo| - 1], Outputs(topo) - Fed(topo, keys), infer, p)
    ensures AsInferred(topo, Outputs(topo) - Fed(topo, keys), infer, p)
  {
    var before := Outputs(topo[..|topo| - 1]);
    var op := topo[|topo| - 1];
    assert forall t | t in op.outputs :: t in OutputsOf(op);
    DeduceOpShapes(op, keys, fed, infer, q, p);
    if op.outputs != [] && !Whole(op, keys) {
      forall t | t in op.inputs ensures t in before && t in q && t in p && p[t] == q[t] {
        var i := IndexOf(op.inputs, t);
        assert op.inputs[i] in q;
      }
      var ins := set t | t in op.inputs;
      InputsAgree(op, ins, p, q);
    }
  }

  /** The recorded plan takes every fed tensor from the feed and every other one from its inputs. */
  lemma {:induction false} FirstOpsShapes(topo: seq<Op>, keys: set<nat>, fed: ShapePlan, infer: Infer, p: ShapePlan)
    requires Proper(topo) && FirstOps(topo, keys, fed, infer) == Some(p)
    ensures p.Keys == Outputs(topo) + keys
    ensures forall t | t in keys :: p[t] == ShapeOf(fed, t)
    ensures AsInferred(topo, Outputs(topo) - keys, infer, p)
  {
    if topo != [] {
      var before := topo[..|topo| - 1];
      var op := topo[|topo| - 1];
      var q := FirstOps(before, keys, fed, infer).value;
      FirstOpsShapes(before, keys, fed, infer, q);
      FirstOpShapes(op, infer, q, p);
      FirstGrows(before, Outputs(before) - keys, infer, q, p);
      AsInferredWithin(before, Outputs(before) - keys, Outputs(topo) - keys, infer, p);
      assert AsInferredOp(op, Outputs(before), Outputs(topo) - keys, infer, p);
    }
  }

  lemma FirstOpShapes(op: Op, infer: Infer, q: ShapePlan, p: ShapePlan)
    requires NoDup(op.outputs) && p == FirstOp(op, infer, q) && forall t | t in op.inputs :: t in q
    ensures p.Keys == q.Keys + OutputsOf(op) && forall t | t in q :: p[t] == q[t]
    ensures forall k | 0 <= k < |op.outputs| && op.outputs[k] !in q ::
              op.outputs[k] in p && p[op.outputs[k]] == infer(op, k, InputShapes(op, p))
  {
    IndexOfEvery(op.outputs);
    var ins := set t | t in op.inputs;
    InputsAgree(op, ins, q, p);
  }

  lemma FirstGrows(topo: seq<Op>, those: set<nat>, infer: Infer, q: ShapePlan, p: ShapePlan)
    requires AsInferred(topo, those, infer, q) && Outputs(topo) <= q.Keys
    requires forall t | t in q :: t in p && p[t] == q[t]
    ensures AsInferred(topo, those, infer, p)
  {
    AsInferredGrows(topo, those, infer, q, p, p.Keys - q.Keys);
  }

  // ---------- when a plan can be made at all ----------

  /** Whether a plan can be deduced depends on which tensors are fed, not on their shapes. */
  lemma {:induction false} DeduceIff(topo: seq<Op>, keys: set<nat>, fed: ShapePlan, infer: Infer)
    requires Proper(topo)
    ensures Deduce(topo, keys, fed, infer).Some? <==> Deducible(topo, keys)
    ensures Deducible(topo, keys) ==>
              DeduceOps(topo, keys, fed, infer).Some? && DeduceOps(topo, keys, fed, infer).value.Keys == Outputs(topo)
  {
    hide DeduceOp, DeducibleOp, AsInferred, Fed, Whole, InputShapes;
    if topo != [] {
      var before, op := topo[..|topo| - 1], topo[|topo| - 1];
      DeduceIff(before, keys, fed, infer);
      assert forall t | t in op.outputs :: t in OutputsOf(op);
      var p := DeduceOps(before, keys, fed, infer);
      if p.Some? {
        DeduceOpsShapes(before, keys, fed, infer, p.value);
        DeduceOpIff(op, keys, fed, infer, p.value);
        var q := DeduceOp(op, keys, fed, infer, p.value);
        if q.Some? && Outputs(topo) <= q.value.Keys {
          DeduceOpShapes(op, keys, fed, infer, p.value, q.value);
          forall t | t in Outputs(before) ensures t in p.value {
            assert t in q.value;
          }
        }
      }
    }
  }

  /** Every operation's inputs are made by the operations before it. */
  ghost predicate InputsMade(topo: seq<Op>) {
    topo == [] || (
        && InputsMade(topo[..|topo| - 1])
        && MadeBefore(topo[|topo| - 1], Outputs(topo[..|topo| - 1])))
  }

  lemma {:induction false} FirstIff(topo: seq<Op>, keys: set<nat>, fed: ShapePlan, infer: Infer)
    ensures FirstOps(topo, keys, fed, infer).Some? <==> InputsMade(topo)
  {
    if topo != [] {
      FirstIff(topo[..|topo| - 1], keys, fed, infer);
    }
  }

  // ---------- when a plan found in a pool is the one that would be deduced ----------

  /** Two plans that agree on some tensors and infer all others agree everywhere. */
  lemma {:induction false} Unique(topo: seq<Op>, given: set<nat>, infer: Infer, p: ShapePlan, q: ShapePlan)
    requires Outputs(topo) <= p.Keys && Outputs(topo) <= q.Keys
    requires forall t | t in given && t in Outputs(topo) :: p[t] == q[t]
    requires AsInferred(topo, Outputs(topo) - given, infer, p) && AsInferred(topo, Outputs(topo) - given, infer, q)
    ensures Agree(p, q, Outputs(topo))
  {
    if topo != [] {
      var before := topo[..|topo| - 1];
      var op := topo[|topo| - 1];
      AsInferredBefore(topo, given, infer, p);
      AsInferredBefore(topo, given, infer, q);
      Unique(before, given, infer, p, q);
      forall t | t in OutputsOf(op) ensures p[t] == q[t] {
        var k := IndexOf(op.outputs, t);
        if t !in given {
          InputsAgree(op, Outputs(before), p, q);
        }
      }
    }
  }

  lemma AsInferredBefore(topo: seq<Op>, given: set<nat>, infer: Infer, p: ShapePlan)
    requires topo != [] && AsInferred(topo, Outputs(topo) - given, infer, p)
    ensures AsInferred(topo[..|topo| - 1], Outputs(topo[..|topo| - 1]) - given, infer, p)
  {
    var before := Outputs(topo[..|topo| - 1]);
    AsInferredUnion(topo, Outputs(topo) - given - before, before - given, infer, p);
    assert Outputs(topo) - given == (Outputs(topo) - given - before) + (before - given);
  }

  /** Agreeing plans are inferred alike. */
  lemma {:induction false} AsInferredAgree(topo: seq<Op>, those: set<nat>, infer: Infer, p: ShapePlan, q: ShapePlan)
    requires Agree(p, q, Outputs(topo)) && AsInferred(topo, those, infer, q)
    ensures AsInferred(topo, those, infer, p)
  {
    if topo != [] {
      var op := topo[|topo| - 1];
      AsInferredAgree(topo[..|topo| - 1], those, infer, p, q);
      forall k | 0 <= k < |op.outputs| && op.outputs[k] in p && op.outputs[k] in those
        ensures forall t | t in op.inputs :: t in Outputs(topo[..|topo| - 1]) && t in p
        ensures p[op.outputs[k]] == infer(op, k, InputShapes(op, p))
      {
        assert op.outputs[k] in OutputsOf(op);
        InputsAgree(op, Outputs(topo[..|topo| - 1]), p, q);
      }
    }
  }

  /** A pooled plan serves a feed when it has the fed shape of every tensor fed with arrays. */
  predicate Matches(p: ShapePlan, need: set<nat>, fed: ShapePlan) {
    forall t | t in need :: t in p && p[t] == ShapeOf(fed, t)
  }

  /**
   A pooled plan whose shapes were inferred except for the tensors in `taken` equals the plan
   deduced for a feed exactly when it has the shapes that this feed gives, and the tensors that
   were taken from the feed then but are computed now have the shapes they are computed to have.
   */
  lemma ChosenIsDeducedIff(
    topo: seq<Op>, keys: set<nat>, fed: ShapePlan, infer: Infer, taken: set<nat>, p: ShapePlan, q: ShapePlan)
    requires Proper(topo) && Outputs(topo) <= p.Keys && AsInferred(topo, Outputs(topo) - taken, infer, p)
    requires Deduce(topo, keys, fed, infer) == Some(q)
    ensures Agree(p, q, Outputs(topo))
            <==> (Matches(p, Fed(topo, keys), fed) && AsInferred(topo, taken - Fed(topo, keys), infer, p))
  {
    hide AsInferred, Outputs, Fed, Proper, DeduceOps;
    var all, now := Outputs(topo), Fed(topo, keys);
    DeduceOpsShapes(topo, keys, fed, infer, q);
    FedWithin(topo, keys);
    if Agree(p, q, all) {
      AsInferredAgree(topo, all - now, infer, p, q);
      AsInferredUnion(topo, all - now, taken - now, infer, p);
      AsInferredWithin(topo, (all - now) + (taken - now), all - now, infer, p);
    }
    if Matches(p, now, fed) && AsInferred(topo, taken - now, infer, p) {
      AsInferredUnion(topo, all - taken, taken - now, infer, p);
      AsInferredUnion(topo, all - now, all - taken, infer, p);
      assert ((all - taken) + (taken - now)) * all == ((all - now) + (all - taken)) * all;
      AsInferredWithin(topo, (all - taken) + (taken - now), (all - now) + (all - taken), infer, p);
      Unique(topo, now, infer, p, q);
    }
  }

  /** With all fed tensors fed as before, a matching plan is the deduced one. */
  lemma MatchedIsDeduced(
    topo: seq<Op>, keys: set<nat>, fed: ShapePlan, infer: Infer, taken: set<nat>, p: ShapePlan, q: ShapePlan)
    requires Proper(topo) && Outputs(topo) <= p.Keys && AsInferred(topo, Outputs(topo) - taken, infer, p)
    requires Deduce(topo, keys, fed, infer) == Some(q)
    requires Matches(p, Fed(topo, keys), fed) && taken * Outputs(topo) <= Fed(topo, keys)
    ensures Agree(p, q, Outputs(topo))
  {
    hide AsInferred, Outputs, Fed, Proper, DeduceOps, Matches;
    ChosenIsDeducedIff(topo, keys, fed, infer, taken, p, q);
    forall t ensures t !in (taken - Fed(topo, keys)) * Outputs(topo) {
      assert t in taken && t in Outputs(topo) ==> t in taken * Outputs(topo);
    }
    assert (taken - Fed(topo, keys)) * Outputs(topo) == {} * Outputs(topo);
    AsInferredWithin(topo, taken - Fed(topo, keys), {}, infer, p);
    AsInferredNone(topo, infer, p);
  }

  lemma {:induction false} AsInferredNone(topo: seq<Op>, infer: Infer, p: ShapePlan)
    ensures AsInferred(topo, {}, infer, p)
  {
    if topo != [] {
      AsInferredNone(topo[..|topo| - 1], infer, p);
    }
  }

  /**
   A plan deduced for a feed is found again for the same feed exactly when every tensor fed with
   arrays is in the topological order: a fed tensor outside it is not recorded.
   */
  lemma FoundAgainIff(topo: seq<Op>, keys: set<nat>, need: set<nat>, fed: ShapePlan, infer: Infer, q: ShapePlan)
    requires Proper(topo) && Deduce(topo, keys, fed, infer) == Some(q)
    requires need * Outputs(topo) <= Fed(topo, keys)
    ensures Matches(q, need, fed) <==> need <= Outputs(topo)
  {
    hide Outputs, Fed, Proper, DeduceOps;
    DeduceOpsShapes(topo, keys, fed, infer, q);
    forall t | t in need ensures t in Outputs(topo) ==> t in Fed(topo, keys) {
      assert t in Outputs(topo) ==> t in need * Outputs(topo);
    }
  }

  /** An order that copies tensor 0 to tensor 1. */
  const CopyOrder: seq<Op> := [Op([], [0], true), Op([0], [1], false)]
  const CopyShape: Infer := (op: Op, k: nat, shapes: seq<Shape>) => if shapes == [] then [] else shapes[0]

  /** A run that feeds both tensors leaves a plan that a run feeding tensor 0 alone finds, though it is not its own. */
  lemma OtherFeedIsMissed()
    ensures FirstOps(CopyOrder, {0, 1}, map[0 := [4], 1 := [7]], CopyShape) == Some(map[0 := [4], 1 := [7]])
    ensures Matches(map[0 := [4], 1 := [7]], {0}, map[0 := [4]])
    ensures Deduce(CopyOrder, {0}, map[0 := [4]], CopyShape) == Some(map[0 := [4], 1 := [4]])
  {
    CopyFirst(map[0 := [4], 1 := [7]], {0, 1});
    CopySource(map[0 := [4]]);
    CopyDeduce(map[0 := [4]]);
    CopyOps(map[0 := [4]], map[0 := [4], 1 := [4]]);
    CopyOutputs();
    hide DeduceOps, FirstOps, Outputs;
  }

  lemma CopyOps(second: ShapePlan, both: ShapePlan)
    requires DeduceOp(CopyOrder[0], {0}, second, CopyShape, map[]) == Some(second)
    requires DeduceOp(CopyOrder[1], {0}, second, CopyShape, second) == Some(both)
    ensures DeduceOps(CopyOrder, {0}, second, CopyShape) == Some(both)
  {
    hide DeduceOp, CopyShape;
    var one := CopyOrder[..1];
    assert one == [CopyOrder[0]] && one[..0] == [];
    assert DeduceOps([], {0}, second, CopyShape) == Some(map[]);
    assert DeduceOps(one, {0}, second, CopyShape) == Some(second);
  }

  lemma CopyOutputs()
    ensures Outputs(CopyOrder) == {0, 1}
  {
    var one := CopyOrder[..1];
    assert one == [CopyOrder[0]] && one[..0] == [];
    assert OutputsOf(CopyOrder[0]) == {0} && OutputsOf(CopyOrder[1]) == {1};
    assert Outputs(one) == {0};
  }

  lemma CopyFirst(first: ShapePlan, both: set<nat>)
    requires first == map[0 := [4], 1 := [7]] && both == {0, 1}
    ensures FirstOps(CopyOrder, both, first, CopyShape) == Some(first)
  {
    assert CopyOrder[..1] == [CopyOrder[0]] && CopyOrder[..1][..0] == [];
    CopyFed(first, both);
    assert Outputs(CopyOrder[..1]) == {0};
    hide FirstOp, Outputs;
  }

  lemma CopyFed(first: ShapePlan, both: set<nat>)
    requires first == map[0 := [4], 1 := [7]] && both == {0, 1}
    ensures FirstOps([], both, first, CopyShape) == Some(first)
    ensures FirstOp(CopyOrder[0], CopyShape, first) == first && FirstOp(CopyOrder[1], CopyShape, first) == first
  {
    assert (map t | t in both :: ShapeOf(first, t)) == first;
    AlreadyThere(CopyOrder[0], CopyShape, first);
    AlreadyThere(CopyOrder[1], CopyShape, first);
    hide FirstOp, CopyShape;
  }

  lemma AlreadyThere(op: Op, infer: Infer, p: ShapePlan)
    requires OutputsOf(op) <= p.Keys
    ensures FirstOp(op, infer, p) == p
  {
    hide InputShapes;
  }

  lemma CopySource(second: ShapePlan)
    requires second == map[0 := [4]]
    ensures DeduceOp(CopyOrder[0], {0}, second, CopyShape, map[]) == Some(second)
  {
    assert CopyOrder[0].outputs[..1] == [0] && Take([0], second, map[]) == second;
  }

  lemma CopyDeduce(second: ShapePlan)
    requires second == map[0 := [4]]
    ensures DeduceOp(CopyOrder[1], {0}, second, CopyShape, second) == Some(map[0 := [4], 1 := [4]])
  {
    var copy := CopyOrder[1];
    assert copy.outputs[..0] == [] && Take([], second, second) == second;
    assert InputShapes(copy, second) == [[4]];
    assert Inferred(copy, CopyShape, second) == map[1 := [4]];
    assert second + map[1 := [4]] == map[0 := [4], 1 := [4]];
    assert copy.outputs[0] == 1 && Known(copy, second);
  }

  // ---------- the shapes of the micro batches ----------

  function Quotient(a: nat, b: nat): nat
    requires b > 0
  {
    a / b
  }

  /** The lengths of the chunks that the first axis of length `n` is split into. */
  function Chunks(n: nat, m: nat): seq<int>
    requires m > 0
  {
    var avg := Quotient(n + m - 1, m);
    seq(m, j => if j < m - 1 then avg else n - (m - 1) * avg)
  }

  /** The smallest number `q` with `m` times `q` at least `n`. */
  predicate IsCeiling(q: int, n: int, m: nat) {
    m * q - m < n <= m * q
  }

  /** The chunks sum to the length, and all but the last are the length over the count, rounded up. */
  lemma ChunksOf(n: nat, m: nat)
    requires m > 0
    ensures |Chunks(n, m)| == m && Strides.Total(Chunks(n, m)) == n
    ensures forall j | 0 <= j < m - 1 :: IsCeiling(Chunks(n, m)[j], n, m)
    ensures IsCeiling(Chunks(n, m)[0], n, m)
  {
    RoundUp(n, m);
    var c, avg := Chunks(n, m), Quotient(n + m - 1, m);
    assert c[..m - 1] == seq(m - 1, j => avg) && (m == 1 ==> c[0] == n);
    TotalSame(avg, m - 1);
    assert (m - 1) * avg + c[m - 1] == n;
  }

  lemma {:induction false} TotalSame(v: int, k: nat)
    ensures Strides.Total(seq(k, j => v)) == k * v
  {
    if k > 0 {
      assert seq(k, j => v)[..k - 1] == seq(k - 1, j => v);
      TotalSame(v, k - 1);
    }
  }

  /** The shape recorded for all micro batches is that of the first: right for all of them when the chunks are equal. */
  lemma SplitEvenlyIff(n: nat, m: nat)
    requires m > 0
    ensures (forall j | 0 <= j < m :: Chunks(n, m)[j] == Chunks(n, m)[0]) <==> n % m == 0
  {
    var avg := Quotient(n + m - 1, m);
    var last := n - (m - 1) * avg;
    assert m * avg == (m - 1) * avg + avg;
    RoundUp(n, m);
    assert Chunks(n, m)[m - 1] == last;
    if m > 1 {
      assert Chunks(n, m)[0] == avg;
    }
  }

  lemma RoundUp(n: nat, m: nat)
    requires m > 0
    ensures n <= m * Quotient(n + m - 1, m) < n + m
    ensures m * Quotient(n + m - 1, m) == n <==> n % m == 0
  {
    var avg := Quotient(n + m - 1, m);
    var rest := (n + m - 1) % m;
    assert n + m - 1 == m * avg + rest && 0 <= rest < m;
    if n % m == 0 {
      var q := n / m;
      assert n == q * m;
      DivModOf(q, m, m - 1);
    }
    if m * avg == n {
      DivModOf(avg, m, 0);
    }
  }
}
