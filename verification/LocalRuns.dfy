/** What regrouping the local operations means for running them. */
module LocalRuns {
  import opened Collections
  import opened Executor
  import opened ReadyInputs
  import LocalTopos

  /** Both operations run, and `b` reads something that `a` makes and that is not there otherwise. */
  ghost predicate Needs<V>(p: Plan<V>, mb: nat, known: set<nat>, a: Op, b: Op) {
    !Passed(p, mb, a) && !Passed(p, mb, b) && exists t :: t in b.ins && t in a.outs && t !in p.preserved && t !in known
  }

  /** `view` lists the same operations as the local order sees them: each depends on those whose outputs it needs. */
  ghost predicate Describes<V>(p: Plan<V>, mb: nat, known: set<nat>, view: seq<LocalTopos.Op>, ops: seq<Op>) {
    && |view| == |ops|
    && forall i, j | 0 <= i < |ops| && 0 <= j < |ops| ::
         view[i].id in view[j].deps <==> Needs(p, mb, known, ops[i], ops[j])
  }

  /** Every input is there from the start or made by some operation that runs, wherever it stands in the list. */
  ghost predicate Supplied<V>(p: Plan<V>, mb: nat, known: set<nat>, ops: seq<Op>) {
    forall j, t | 0 <= j < |ops| && !Passed(p, mb, ops[j]) && t in ops[j].ins ::
      t in p.preserved || t in known || MadeBefore(p, mb, ops, |ops|, t)
  }

  lemma OneMaker(ops: seq<Op>, i: nat, j: nat, t: nat)
    requires NoDup(Outs(ops)) && i < |ops| && j < |ops| && t in ops[i].outs && t in ops[j].outs
    ensures i == j
  {
    if i < j {
      MadeTwice(ops, i, j, t);
    } else if j < i {
      MadeTwice(ops, j, i, t);
    }
  }

  lemma MadeTwice(ops: seq<Op>, i: nat, j: nat, t: nat)
    requires i < j < |ops| && t in ops[i].outs && t in ops[j].outs
    ensures !NoDup(Outs(ops))
  {
    hide Outs, NoDup;
    var before, after := ops[..j], ops[j + 1..];
    assert before[i] == ops[i] && ops == before + [ops[j]] + after;
    InOuts(before, ops[i], t);
    OutsSplit(before, ops[j], after);
    if NoDup(Outs(ops)) {
      NoDupMiddle(Outs(before), ops[j].outs, Outs(after), t);
    }
  }

  /** A list of operations finds all its inputs exactly when it is in topological order. */
  lemma ReadyIffTopological<V>(p: Plan<V>, mb: nat, known: set<nat>, view: seq<LocalTopos.Op>, ops: seq<Op>)
    requires Describes(p, mb, known, view, ops) && Supplied(p, mb, known, ops) && NoDup(Outs(ops))
    ensures Ready(p, mb, ops, known) <==> LocalTopos.Topological(view)
  {
    hide Passed, Outs, NoDup;
    if Ready(p, mb, ops, known) {
      forall i, j | 0 <= i < |view| && 0 <= j < |view| && view[i].id in view[j].deps ensures i < j {
        assert Needs(p, mb, known, ops[i], ops[j]);
        var t :| t in ops[j].ins && t in ops[i].outs && t !in p.preserved && t !in known;
        assert InputsAt(p, mb, ops, known, j) && MadeBefore(p, mb, ops, j, t);
        var i' :| 0 <= i' < j && !Passed(p, mb, ops[i']) && t in ops[i'].outs;
        OneMaker(ops, i, i', t);
      }
    }
    if LocalTopos.Topological(view) {
      forall j | 0 <= j < |ops| && !Passed(p, mb, ops[j]) ensures InputsAt(p, mb, ops, known, j) {
        forall t | t in ops[j].ins && t !in p.preserved && t !in known ensures MadeBefore(p, mb, ops, j, t) {
          assert MadeBefore(p, mb, ops, |ops|, t);
          var i :| 0 <= i < |ops| && !Passed(p, mb, ops[i]) && t in ops[i].outs;
          assert Needs(p, mb, known, ops[i], ops[j]);
        }
      }
    }
  }

  /**
   The regrouped operations of a pass find their inputs, which is what a sound plan needs, exactly when
   no operation of this device needs the output of one on a later list.
   */
  lemma RegroupedReadyIff<V>(p: Plan<V>, mb: nat, known: set<nat>, topo: seq<LocalTopos.Op>, ops: seq<Op>)
    requires LocalTopos.DistinctIds(topo) && LocalTopos.Topological(topo) && NoDup(Outs(ops))
    requires Describes(p, mb, known, LocalTopos.LocalTopo(topo), ops) && Supplied(p, mb, known, ops)
    ensures Ready(p, mb, ops, known) <==>
            forall a, b | a in topo && b in topo && LocalTopos.Ordered(a) && LocalTopos.Ordered(b) && a.id in b.deps ::
              LocalTopos.PlaceOf(a) <= LocalTopos.PlaceOf(b)
  {
    hide *;
    ReadyIffTopological(p, mb, known, LocalTopos.LocalTopo(topo), ops);
    LocalTopos.RegroupedTopologicalIff(topo);
  }
}
