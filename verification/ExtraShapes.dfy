/** The shapes of the tensors that exist only in the executable graph. */
module ExtraShapes {
  import opened Collections
  import opened ShapePlans

  /** Infers the outputs of the recorded operations in turn; a shape that is there already stays. */
  function Extended(extras: seq<Op>, infer: Infer, e: ShapePlan): Option<ShapePlan> {
    if extras == [] then Some(e) else
      var op := extras[|extras| - 1];
      var q := Extended(extras[..|extras| - 1], infer, e);
      if q.None? || !Known(op, q.value) then None else Some(FirstOp(op, infer, q.value))
  }

  /** Every input is there from the start or made by an operation recorded before. */
  ghost predicate Supplied(extras: seq<Op>, start: set<nat>) {
    extras == [] || (
        && Supplied(extras[..|extras| - 1], start)
        && MadeBefore(extras[|extras| - 1], start + Outputs(extras[..|extras| - 1])))
  }

  lemma FirstOpKeys(op: Op, infer: Infer, p: ShapePlan)
    ensures FirstOp(op, infer, p).Keys == p.Keys + OutputsOf(op)
    ensures forall t | t in p :: FirstOp(op, infer, p)[t] == p[t]
    ensures forall t | t in op.outputs && t !in p ::
              && t in FirstOp(op, infer, p)
              && FirstOp(op, infer, p)[t] == infer(op, IndexOf(op.outputs, t), InputShapes(op, p))
  {
    hide InputShapes;
    assert forall t :: t in OutputsOf(op) <==> t in op.outputs;
  }

  /** The extension succeeds exactly when every input is supplied; it keeps all shapes and covers the outputs. */
  lemma {:induction false} ExtendedIff(extras: seq<Op>, infer: Infer, e: ShapePlan)
    ensures Extended(extras, infer, e).Some? <==> Supplied(extras, e.Keys)
    ensures Extended(extras, infer, e).Some? ==>
              var q := Extended(extras, infer, e).value;
              q.Keys == e.Keys + Outputs(extras) && forall t | t in e :: t in q && q[t] == e[t]
  {
    if extras == [] { return; }
    hide FirstOp, Known, MadeBefore;
    var before, op := extras[..|extras| - 1], extras[|extras| - 1];
    ExtendedIff(before, infer, e);
    if Extended(before, infer, e).Some? {
      var q := Extended(before, infer, e).value;
      KnownIff(op, q);
      FirstOpKeys(op, infer, q);
    }
  }

  /** The loop over the recorded tensors' producers. */
  method ExtendPlan(extras: seq<Op>, infer: Infer, e: ShapePlan) returns (ok: bool, q: ShapePlan)
    ensures ok <==> Supplied(extras, e.Keys)
    ensures ok ==> Extended(extras, infer, e) == Some(q)
  {
    hide FirstOp, Known, Supplied;
    q := e;
    ExtendedIff(extras, infer, e);
    for i := 0 to |extras|
      invariant Extended(extras[..i], infer, e) == Some(q)
    {
      assert extras[..i + 1][..i] == extras[..i];
      ok, q := InferExtra(extras[i], infer, q);
      if !ok {
        ExtendedStops(extras, i + 1, infer, e);
        return;
      }
    }
    assert extras[..|extras|] == extras;
    ok := true;
  }

  lemma {:induction false} ExtendedStops(extras: seq<Op>, n: nat, infer: Infer, e: ShapePlan)
    requires n <= |extras| && Extended(extras[..n], infer, e).None?
    ensures Extended(extras, infer, e).None?
    decreases |extras|
  {
    if n == |extras| {
      assert extras[..n] == extras;
    } else {
      assert extras[..|extras| - 1][..n] == extras[..n];
      ExtendedStops(extras[..|extras| - 1], n, infer, e);
    }
  }

  /** One operation: read the shapes of its inputs, and insert those of its outputs that are not there. */
  method InferExtra(op: Op, infer: Infer, e: ShapePlan) returns (ok: bool, q: ShapePlan)
    ensures ok <==> Known(op, e)
    ensures ok ==> q == FirstOp(op, infer, e)
  {
    q := e;
    var shapes := [];
    for i := 0 to |op.inputs|
      invariant |shapes| == i && forall j | 0 <= j < i :: op.inputs[j] in e && shapes[j] == ShapeOf(e, op.inputs[j])
    {
      if op.inputs[i] !in e {
        return false, q;
      }
      shapes := shapes + [e[op.inputs[i]]];
    }
    assert shapes == InputShapes(op, e);
    hide FirstOp;
    NothingInserted(op, infer, e);
    for k := 0 to |op.outputs|
      invariant Inserted(op, infer, e, q, k)
    {
      hide Inserted, InputShapes;
      InsertNext(op, infer, e, q, k);
      if op.outputs[k] !in q {
        q := q[op.outputs[k] := infer(op, k, shapes)];
      }
    }
    InsertedAll(op, infer, e, q);
    ok := true;
  }

  /** The plan with the first `n` outputs inserted. */
  ghost predicate Inserted(op: Op, infer: Infer, e: ShapePlan, q: ShapePlan, n: nat)
    requires n <= |op.outputs|
  {
    && (forall t :: t in q <==> t in e || t in op.outputs[..n])
    && (forall t | t in e :: q[t] == e[t])
    && (forall t | t in op.outputs[..n] && t !in e ::
          t in op.outputs && q[t] == infer(op, IndexOf(op.outputs, t), InputShapes(op, e)))
  }

  lemma NothingInserted(op: Op, infer: Infer, e: ShapePlan)
    ensures Inserted(op, infer, e, e, 0)
  {
  }

  lemma {:induction false} FirstPlace(s: seq<nat>, k: nat)
    requires k < |s| && s[k] !in s[..k]
    ensures s[k] in s && IndexOf(s, s[k]) == k
  {
    if k > 0 {
      assert s[..k][0] == s[0] && s[0] != s[k];
      assert s[1..][..k - 1] == s[..k][1..];
      FirstPlace(s[1..], k - 1);
    }
  }

  lemma InsertNext(op: Op, infer: Infer, e: ShapePlan, q: ShapePlan, k: nat)
    requires k < |op.outputs| && Inserted(op, infer, e, q, k)
    ensures op.outputs[k] in q ==> Inserted(op, infer, e, q, k + 1)
    ensures op.outputs[k] !in q ==>
              Inserted(op, infer, e, q[op.outputs[k] := infer(op, k, InputShapes(op, e))], k + 1)
  {
    hide InputShapes, IndexOf;
    assert op.outputs[..k + 1] == op.outputs[..k] + [op.outputs[k]];
    if op.outputs[k] !in q { FirstPlace(op.outputs, k); }
  }

  lemma InsertedAll(op: Op, infer: Infer, e: ShapePlan, q: ShapePlan)
    requires Inserted(op, infer, e, q, |op.outputs|)
    ensures q == FirstOp(op, infer, e)
  {
    hide InputShapes, IndexOf, FirstOp;
    FirstOpKeys(op, infer, e);
    assert op.outputs[..|op.outputs|] == op.outputs;
    assert forall t :: t in OutputsOf(op) <==> t in op.outputs;
    forall t | t in q ensures q[t] == FirstOp(op, infer, e)[t] { }
    assert q.Keys == FirstOp(op, infer, e).Keys;
  }

  // ---------- what an extended plan means ----------

  /** Each output of the operation has the shape inferred from the plan's shapes of its inputs. */
  ghost predicate OpInferred(op: Op, infer: Infer, p: ShapePlan) {
    && (forall t | t in op.inputs :: t in p)
    && forall t | t in op.outputs :: t in p && p[t] == infer(op, IndexOf(op.outputs, t), InputShapes(op, p))
  }

  ghost predicate AllInferred(extras: seq<Op>, infer: Infer, p: ShapePlan) {
    forall op | op in extras :: OpInferred(op, infer, p)
  }

  /** A tensor has one producer, and those of the extra operations are new. */
  ghost predicate SingleMakers(extras: seq<Op>, start: set<nat>) {
    && (forall a, b, t | a in extras && b in extras && t in a.outputs && t in b.outputs :: a == b)
    && forall a, t | a in extras && t in a.outputs :: t !in start
  }

  lemma {:induction false} OutputsMember(ops: seq<Op>, t: nat)
    ensures t in Outputs(ops) <==> exists op :: op in ops && t in op.outputs
  {
    if ops != [] {
      var before, op := ops[..|ops| - 1], ops[|ops| - 1];
      OutputsMember(before, t);
      assert ops == before + [op];
      assert t in OutputsOf(op) <==> t in op.outputs;
    }
  }

  ghost predicate Keeps(p: ShapePlan, q: ShapePlan) {
    forall t | t in p :: t in q && q[t] == p[t]
  }

  lemma OpInferredKept(op: Op, infer: Infer, p: ShapePlan, q: ShapePlan)
    requires OpInferred(op, infer, p) && Keeps(p, q)
    ensures OpInferred(op, infer, q)
  {
    SameInputs(op, p, q);
    hide InputShapes, IndexOf;
  }

  lemma SameInputs(op: Op, p: ShapePlan, q: ShapePlan)
    requires Keeps(p, q) && forall t | t in op.inputs :: t in p
    ensures InputShapes(op, p) == InputShapes(op, q)
  {
    forall i | 0 <= i < |op.inputs| ensures ShapeOf(p, op.inputs[i]) == ShapeOf(q, op.inputs[i]) {
      assert op.inputs[i] in op.inputs;
    }
  }

  /** Inferring an operation whose outputs are all new. */
  lemma NewOpInferred(op: Op, infer: Infer, p: ShapePlan)
    requires (forall t | t in op.inputs :: t in p) && forall t | t in op.outputs :: t !in p
    ensures OpInferred(op, infer, FirstOp(op, infer, p)) && Keeps(p, FirstOp(op, infer, p))
  {
    hide InputShapes, IndexOf, FirstOp;
    FirstOpKeys(op, infer, p);
    SameInputs(op, p, FirstOp(op, infer, p));
    assert forall t :: t in OutputsOf(op) <==> t in op.outputs;
  }

  /** Makers of a prefix of the list, for an operation that is not in it. */
  lemma NotMadeBefore(ops: seq<Op>, before: seq<Op>, start: set<nat>, op: Op, t: nat)
    requires SingleMakers(ops, start) && op in ops && (forall a | a in before :: a in ops) && op !in before
    requires t in op.outputs
    ensures t !in start && t !in Outputs(before)
  {
    OutputsMember(before, t);
  }

  /** Every tensor of an extended plan has the shape inferred from its producer's inputs. */
  lemma {:induction false} ExtendedInferred(extras: seq<Op>, infer: Infer, e: ShapePlan, p: ShapePlan)
    requires SingleMakers(extras, e.Keys) && Extended(extras, infer, e) == Some(p)
    ensures AllInferred(extras, infer, p)
  {
    if extras == [] { return; }
    var before, op := extras[..|extras| - 1], extras[|extras| - 1];
    assert extras == before + [op];
    var q := Extended(before, infer, e).value;
    FewerMakers(extras, before, e.Keys);
    hide FirstOp, Known, OpInferred, SingleMakers, MadeBefore;
    ExtendedInferred(before, infer, e, q);
    ExtendedIff(before, infer, e);
    KnownIff(op, q);
    FirstOpKeys(op, infer, q);
    if op in before {
      assert OpInferred(op, infer, q);
    } else {
      forall t | t in op.outputs ensures t !in q { NotMadeBefore(extras, before, e.Keys, op, t); }
      InputsKnown(op, q);
      NewOpInferred(op, infer, q);
    }
    forall a | a in extras ensures OpInferred(a, infer, p) {
      if a in before { OpInferredKept(a, infer, q, p); }
    }
  }

  lemma InputsKnown(op: Op, p: ShapePlan)
    requires MadeBefore(op, p.Keys)
    ensures forall t | t in op.inputs :: t in p
  {
  }

  lemma FewerMakers(ops: seq<Op>, before: seq<Op>, start: set<nat>)
    requires SingleMakers(ops, start) && forall a | a in before :: a in ops
    ensures SingleMakers(before, start)
  {
  }

  /** Two plans that agree on the mapped tensors and infer the others agree everywhere. */
  lemma {:induction false} ExtendedUnique(extras: seq<Op>, infer: Infer, start: set<nat>, p: ShapePlan, q: ShapePlan)
    requires Supplied(extras, start) && Agree(p, q, start)
    requires AllInferred(extras, infer, p) && AllInferred(extras, infer, q)
    ensures Agree(p, q, start + Outputs(extras))
  {
    if extras == [] { return; }
    var before, op := extras[..|extras| - 1], extras[|extras| - 1];
    assert extras == before + [op];
    ExtendedUnique(before, infer, start, p, q);
    assert OpInferred(op, infer, p) && OpInferred(op, infer, q);
    InputsAgree(op, start + Outputs(before), p, q);
    hide InputShapes, IndexOf;
    forall t | t in start + Outputs(extras) ensures t in p && t in q && p[t] == q[t] {
      if t !in start + Outputs(before) { assert t in op.outputs; }
    }
  }

  // ---------- bringing an older plan up to date ----------

  /** A recorded tensor: output `k` of its producer. */
  datatype Record = Record(op: Op, k: nat)

  function OpsOf(recorded: seq<Record>): (ops: seq<Op>)
    ensures |ops| == |recorded| && forall i | 0 <= i < |ops| :: ops[i] == recorded[i].op
  {
    if recorded == [] then [] else OpsOf(recorded[..|recorded| - 1]) + [recorded[|recorded| - 1].op]
  }

  predicate InRange(recorded: seq<Record>) {
    forall i | 0 <= i < |recorded| :: recorded[i].k < |recorded[i].op.outputs|
  }

  /** Passes over the recorded tensors that have a shape already, and infers the others. */
  function Updated(recorded: seq<Record>, infer: Infer, e: ShapePlan): Option<ShapePlan>
    requires InRange(recorded)
  {
    if recorded == [] then Some(e) else
      var r := recorded[|recorded| - 1];
      var q := Updated(recorded[..|recorded| - 1], infer, e);
      if q.None? then None
      else if r.op.outputs[r.k] in q.value then q
      else if !Known(r.op, q.value) then None
      else Some(FirstOp(r.op, infer, q.value))
  }

  method UpdateExecShapePlan(recorded: seq<Record>, infer: Infer, e: ShapePlan) returns (ok: bool, q: ShapePlan)
    requires InRange(recorded)
    ensures ok <==> Updated(recorded, infer, e).Some?
    ensures ok ==> Updated(recorded, infer, e) == Some(q)
  {
    hide FirstOp, Known;
    q := e;
    for i := 0 to |recorded|
      invariant Updated(recorded[..i], infer, e) == Some(q)
    {
      assert recorded[..i + 1][..i] == recorded[..i];
      var r := recorded[i];
      if r.op.outputs[r.k] in q {
        continue;
      }
      ok, q := InferExtra(r.op, infer, q);
      if !ok {
        UpdatedStops(recorded, i + 1, infer, e);
        return;
      }
    }
    assert recorded[..|recorded|] == recorded;
    ok := true;
  }

  lemma {:induction false} UpdatedStops(recorded: seq<Record>, n: nat, infer: Infer, e: ShapePlan)
    requires InRange(recorded) && n <= |recorded| && Updated(recorded[..n], infer, e).None?
    ensures Updated(recorded, infer, e).None?
    decreases |recorded|
  {
    if n == |recorded| {
      assert recorded[..n] == recorded;
    } else {
      assert recorded[..|recorded| - 1][..n] == recorded[..n];
      UpdatedStops(recorded[..|recorded| - 1], n, infer, e);
    }
  }

  /** The state of the update: everything recorded so far, or already when the plan was made, is inferred. */
  ghost predicate UpToDate(u: ShapePlan, e: ShapePlan, was: seq<Op>, ops: seq<Op>, infer: Infer) {
    Keeps(e, u) && u.Keys == e.Keys + Outputs(ops) && AllInferred(was, infer, u) && AllInferred(ops, infer, u)
  }

  lemma UpdateOne(
    all: seq<Op>, start: set<nat>, was: seq<Op>, before: seq<Op>, r: Record, infer: Infer, e: ShapePlan, u: ShapePlan)
    requires SingleMakers(all, start) && r.op in all && r.k < |r.op.outputs|
    requires (forall a | a in was :: a in all) && (forall a | a in before :: a in all)
    requires e.Keys == start + Outputs(was) && UpToDate(u, e, was, before, infer)
    requires MadeBefore(r.op, start + Outputs(before))
    ensures r.op.outputs[r.k] in u ==> UpToDate(u, e, was, before + [r.op], infer)
    ensures r.op.outputs[r.k] !in u ==>
              Known(r.op, u) && UpToDate(FirstOp(r.op, infer, u), e, was, before + [r.op], infer)
  {
    var op := r.op;
    assert r.op.outputs[r.k] in op.outputs;
    hide *;
    OutputsNext(before, op);
    if op in was || op in before {
      UpdateSeen(was, before, op, infer, e, u);
    } else {
      forall v | v in op.outputs ensures v !in u {
        StillUpToDate(u, e, was, before, infer);
        NotMadeBefore(all, was, start, op, v);
        NotMadeBefore(all, before, start, op, v);
      }
      StillUpToDate(u, e, was, before, infer);
      KnownFrom(op, start + Outputs(before), u);
      UpdateNew(was, before, op, infer, e, u);
    }
  }

  lemma StillUpToDate(u: ShapePlan, e: ShapePlan, was: seq<Op>, ops: seq<Op>, infer: Infer)
    requires UpToDate(u, e, was, ops, infer)
    ensures Keeps(e, u) && u.Keys == e.Keys + Outputs(ops)
  {
  }

  lemma OutputsNext(before: seq<Op>, op: Op)
    ensures Outputs(before + [op]) == Outputs(before) + OutputsOf(op)
    ensures forall t :: t in OutputsOf(op) <==> t in op.outputs
  {
    assert (before + [op])[..|before + [op]| - 1] == before;
  }

  /** An operation seen before has all its outputs already. */
  lemma UpdateSeen(was: seq<Op>, before: seq<Op>, op: Op, infer: Infer, e: ShapePlan, u: ShapePlan)
    requires UpToDate(u, e, was, before, infer) && (op in was || op in before)
    ensures UpToDate(u, e, was, before + [op], infer) && forall t | t in op.outputs :: t in u
  {
    assert OpInferred(op, infer, u);
    hide Outputs;
    OutputsNext(before, op);
    hide OutputsOf;
    OutputsThere(op, infer, u);
    hide OpInferred;
  }

  lemma UpdateNew(was: seq<Op>, before: seq<Op>, op: Op, infer: Infer, e: ShapePlan, u: ShapePlan)
    requires UpToDate(u, e, was, before, infer) && (forall t | t in op.inputs :: t in u)
    requires forall t | t in op.outputs :: t !in u
    ensures UpToDate(FirstOp(op, infer, u), e, was, before + [op], infer)
  {
    hide OpInferred, FirstOp, Outputs, OutputsOf;
    OutputsNext(before, op);
    NewOpInferred(op, infer, u);
    FirstOpKeys(op, infer, u);
    var next := FirstOp(op, infer, u);
    forall a | a in was || a in before ensures OpInferred(a, infer, next) { OpInferredKept(a, infer, u, next); }
  }

  lemma OutputsThere(op: Op, infer: Infer, u: ShapePlan)
    requires OpInferred(op, infer, u)
    ensures OutputsOf(op) <= u.Keys && forall t | t in op.outputs :: t in u
  {
  }

  lemma KnownFrom(op: Op, those: set<nat>, u: ShapePlan)
    requires MadeBefore(op, those) && those <= u.Keys
    ensures Known(op, u) && forall t | t in op.inputs :: t in u
  {
    KnownIff(op, u);
  }

  lemma {:induction false} UpdatedKeeps(
    all: seq<Op>, start: set<nat>, was: seq<Op>, recorded: seq<Record>, infer: Infer, e: ShapePlan)
    requires InRange(recorded) && SingleMakers(all, start) && Supplied(OpsOf(recorded), start)
    requires (forall a | a in was :: a in all) && forall a | a in OpsOf(recorded) :: a in all
    requires e.Keys == start + Outputs(was) && AllInferred(was, infer, e)
    ensures Updated(recorded, infer, e).Some?
    ensures UpToDate(Updated(recorded, infer, e).value, e, was, OpsOf(recorded), infer)
  {
    hide OpInferred, SingleMakers, MadeBefore, Known, FirstOp;
    if recorded == [] { return; }
    var n := |recorded| - 1;
    var before, r, ops := recorded[..n], recorded[n], OpsOf(recorded);
    assert ops == OpsOf(before) + [r.op] && ops[..n] == OpsOf(before);
    assert r.op in ops && forall a | a in OpsOf(before) :: a in ops;
    UpdatedKeeps(all, start, was, before, infer, e);
    hide AllInferred;
    UpdateOne(all, start, was, OpsOf(before), r, infer, e, Updated(before, infer, e).value);
  }

  /**
   Bringing a plan up to date gives the plan that would be deduced now, however many of the
   operations recorded by now were recorded when it was made, and in whatever order.
   */
  lemma UpdatedIsFresh(recorded: seq<Record>, was: seq<Op>, infer: Infer, e: ShapePlan, plan: ShapePlan)
    requires InRange(recorded) && SingleMakers(OpsOf(recorded), e.Keys) && Supplied(OpsOf(recorded), e.Keys)
    requires (forall a | a in was :: a in OpsOf(recorded)) && Extended(was, infer, e) == Some(plan)
    ensures Extended(OpsOf(recorded), infer, e).Some?
    ensures Updated(recorded, infer, plan) == Extended(OpsOf(recorded), infer, e)
  {
    var ops, start := OpsOf(recorded), e.Keys;
    hide *;
    ExtendedIff(ops, infer, e);
    ExtendedIff(was, infer, e);
    FewerMakers(ops, was, start);
    ExtendedInferred(was, infer, e, plan);
    UpdatedKeeps(ops, start, was, recorded, infer, plan);
    var deduced, now := Extended(ops, infer, e).value, Updated(recorded, infer, plan).value;
    ExtendedInferred(ops, infer, e, deduced);
    NowMeans(now, plan, was, ops, infer);
    AgreeFrom(e, plan, now, deduced);
    ExtendedUnique(ops, infer, start, now, deduced);
    FewerOutputs(was, ops);
    AgreeAll(now, deduced, start + Outputs(ops));
  }

  lemma NowMeans(u: ShapePlan, e: ShapePlan, was: seq<Op>, ops: seq<Op>, infer: Infer)
    requires UpToDate(u, e, was, ops, infer)
    ensures forall t | t in e :: t in u && u[t] == e[t]
    ensures u.Keys == e.Keys + Outputs(ops) && AllInferred(ops, infer, u)
  {
    hide AllInferred;
  }

  lemma AgreeFrom(e: ShapePlan, plan: ShapePlan, now: ShapePlan, deduced: ShapePlan)
    requires forall t | t in e :: t in plan && plan[t] == e[t]
    requires forall t | t in plan :: t in now && now[t] == plan[t]
    requires forall t | t in e :: t in deduced && deduced[t] == e[t]
    ensures Agree(now, deduced, e.Keys)
  {
  }

  lemma AgreeAll(p: ShapePlan, q: ShapePlan, all: set<nat>)
    requires Agree(p, q, all) && p.Keys == all == q.Keys
    ensures p == q
  {
  }

  lemma FewerOutputs(was: seq<Op>, ops: seq<Op>)
    requires forall a | a in was :: a in ops
    ensures Outputs(was) <= Outputs(ops)
  {
    hide Outputs;
    forall t | t in Outputs(was) ensures t in Outputs(ops) {
      OutputsMember(was, t);
      OutputsMember(ops, t);
    }
  }
}
