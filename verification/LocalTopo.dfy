/**
 The local topological order of one direction: the operations of this device, regrouped so
 that receives come first and sends late.
 */
module LocalTopos {
  import opened Collections

  datatype Op = Op(
    id: nat, deps: set<nat>, here: bool,
    sharedSend: bool, sharedRecv: bool, sharedGradRecv: bool, send: bool, recv: bool,
    variable: bool, update: bool, optimizer: bool, group: bool)

  datatype Class = SharedGradRecv | SharedRecv | Recv | Compute | Send | Update | Optimizer | Group | Variable

  /** The list an operation is put on. */
  function ClassOf(op: Op): Class {
    if op.sharedSend then Compute
    else if op.sharedRecv then SharedRecv
    else if op.sharedGradRecv then SharedGradRecv
    else if op.send then Send
    else if op.recv then Recv
    else if op.variable then Variable
    else if op.update then Update
    else if op.optimizer then Optimizer
    else if op.group then Group
    else Compute
  }

  /** The place of a list in the regrouped order; variables are kept apart. */
  function Place(c: Class): nat {
    match c
    case SharedGradRecv => 0
    case SharedRecv => 1
    case Recv => 2
    case Compute => 3
    case Send => 4
    case Update => 5
    case Optimizer => 6
    case Group => 7
    case Variable => 8
  }

  function PlaceOf(op: Op): nat {
    Place(ClassOf(op))
  }

  // ---------- the specification: a stable sort by place ----------

  function Pick(topo: seq<Op>, place: nat): seq<Op> {
    if topo == [] then [] else
      var op := topo[|topo| - 1];
      Pick(topo[..|topo| - 1], place) + if op.here && PlaceOf(op) == place then [op] else []
  }

  function Below(topo: seq<Op>, place: nat): seq<Op> {
    if place == 0 then [] else Below(topo, place - 1) + Pick(topo, place - 1)
  }

  /** The operations of this device other than variables. */
  predicate Ordered(op: Op) {
    op.here && PlaceOf(op) < 8
  }

  function LocalTopo(topo: seq<Op>): seq<Op> {
    Below(topo, 8)
  }

  ghost predicate DistinctIds(topo: seq<Op>) {
    forall i, j | 0 <= i < |topo| && 0 <= j < |topo| && topo[i].id == topo[j].id :: i == j
  }

  /** Whatever an operation depends on comes before it. */
  ghost predicate Topological(s: seq<Op>) {
    forall i, j | 0 <= i < |s| && 0 <= j < |s| && s[i].id in s[j].deps :: i < j
  }

  /** Regrouping puts `a` before `b`. */
  ghost predicate Less(topo: seq<Op>, a: Op, b: Op)
    requires a in topo && b in topo
  {
    PlaceOf(a) < PlaceOf(b) || (PlaceOf(a) == PlaceOf(b) && IndexOf(topo, a) < IndexOf(topo, b))
  }

  ghost predicate SortedBy(topo: seq<Op>, s: seq<Op>)
    requires forall a | a in s :: a in topo
  {
    forall i, j | 0 <= i < j < |s| :: Less(topo, s[i], s[j])
  }

  // ---------- regrouping ----------

  method GetLocalTopo(
    topo: seq<Op>, localTopo: seq<Op>, variables: seq<Op>) returns (local': seq<Op>, variables': seq<Op>)
    ensures local' == localTopo + LocalTopo(topo)
    ensures variables' == variables + Pick(topo, 8)
  {
    hide Pick, LocalTopo;
    variables' := variables;
    PickNone();
    assert topo[..0] == [];
    var sharedGradRecvs, sharedRecvs, recvs, computes := [], [], [], [];
    var sends, updates, optimizers, groups := [], [], [], [];
    for i := 0 to |topo|
      invariant sharedGradRecvs == Pick(topo[..i], 0) && sharedRecvs == Pick(topo[..i], 1)
      invariant recvs == Pick(topo[..i], 2) && computes == Pick(topo[..i], 3)
      invariant sends == Pick(topo[..i], 4) && updates == Pick(topo[..i], 5)
      invariant optimizers == Pick(topo[..i], 6) && groups == Pick(topo[..i], 7)
      invariant variables' == variables + Pick(topo[..i], 8)
    {
      var op := topo[i];
      PickNext(topo, i);
      if op.here {
        if op.sharedSend {
          computes := computes + [op];
        } else if op.sharedRecv {
          sharedRecvs := sharedRecvs + [op];
        } else if op.sharedGradRecv {
          sharedGradRecvs := sharedGradRecvs + [op];
        } else if op.send {
          sends := sends + [op];
        } else if op.recv {
          recvs := recvs + [op];
        } else if op.variable {
          variables' := variables' + [op];
        } else if op.update {
          updates := updates + [op];
        } else if op.optimizer {
          optimizers := optimizers + [op];
        } else if op.group {
          groups := groups + [op];
        } else {
          computes := computes + [op];
        }
      }
    }
    assert topo[..|topo|] == topo;
    local' := localTopo + sharedGradRecvs + sharedRecvs;
    local' := local' + recvs + computes + sends;
    local' := local' + updates + optimizers + groups;
    EightLists(topo);
  }

  lemma PickNone()
    ensures forall place :: Pick([], place) == []
  {
  }

  lemma PickNext(topo: seq<Op>, i: nat)
    requires i < |topo|
    ensures forall place: nat ::
              Pick(topo[..i + 1], place)
              == if topo[i].here && PlaceOf(topo[i]) == place then Pick(topo[..i], place) + [topo[i]]
                 else Pick(topo[..i], place)
  {
    assert topo[..i + 1][..i] == topo[..i];
  }

  lemma EightLists(topo: seq<Op>)
    ensures LocalTopo(topo) == Pick(topo, 0) + Pick(topo, 1) + Pick(topo, 2) + Pick(topo, 3)
                               + Pick(topo, 4) + Pick(topo, 5) + Pick(topo, 6) + Pick(topo, 7)
  {
    hide Pick;
    assert Below(topo, 1) == Pick(topo, 0);
    assert Below(topo, 2) == Pick(topo, 0) + Pick(topo, 1);
    assert Below(topo, 3) == Below(topo, 2) + Pick(topo, 2);
    assert Below(topo, 4) == Below(topo, 3) + Pick(topo, 3);
    assert Below(topo, 5) == Below(topo, 4) + Pick(topo, 4);
    assert Below(topo, 6) == Below(topo, 5) + Pick(topo, 5);
    assert Below(topo, 7) == Below(topo, 6) + Pick(topo, 6);
    assert Below(topo, 8) == Below(topo, 7) + Pick(topo, 7);
  }

  // ---------- nothing lost, and sorted ----------

  lemma {:induction false} PickMembers(topo: seq<Op>, place: nat)
    ensures forall a :: a in Pick(topo, place) <==> a in topo && a.here && PlaceOf(a) == place
  {
    if topo != [] {
      PickMembers(topo[..|topo| - 1], place);
      assert topo == topo[..|topo| - 1] + [topo[|topo| - 1]];
    }
  }

  lemma {:induction false} BelowMembers(topo: seq<Op>, place: nat)
    ensures forall a :: a in Below(topo, place) <==> a in topo && a.here && PlaceOf(a) < place
  {
    hide PlaceOf, Pick;
    if place > 0 {
      BelowMembers(topo, place - 1);
      PickMembers(topo, place - 1);
    }
  }

  lemma {:induction false} PickSorted(topo: seq<Op>, place: nat)
    requires NoDup(topo)
    ensures (forall a | a in Pick(topo, place) :: a in topo) && SortedBy(topo, Pick(topo, place))
  {
    PickMembers(topo, place);
    if topo != [] {
      var n := |topo| - 1;
      var before := Pick(topo[..n], place);
      PickSorted(topo[..n], place);
      PickMembers(topo[..n], place);
      IndexOfEvery(topo);
      forall i, j | 0 <= i < j < |Pick(topo, place)| ensures Less(topo, Pick(topo, place)[i], Pick(topo, place)[j]) {
        var a, b := Pick(topo, place)[i], Pick(topo, place)[j];
        assert a in before;
        IndexOfPrefix(topo, n, a);
        if j < |before| {
          assert b in before;
          IndexOfPrefix(topo, n, b);
        }
      }
    }
  }

  lemma SortedAppend(topo: seq<Op>, s: seq<Op>, t: seq<Op>)
    requires (forall a | a in s :: a in topo) && (forall a | a in t :: a in topo)
    requires SortedBy(topo, s) && SortedBy(topo, t) && forall a, b | a in s && b in t :: PlaceOf(a) < PlaceOf(b)
    ensures SortedBy(topo, s + t)
  {
    hide PlaceOf, IndexOf;
    forall i, j | 0 <= i < j < |s + t| ensures Less(topo, (s + t)[i], (s + t)[j]) {
      if j < |s| {
        assert Less(topo, s[i], s[j]);
      } else if |s| <= i {
        assert Less(topo, t[i - |s|], t[j - |s|]);
      } else {
        assert s[i] in s && t[j - |s|] in t;
      }
    }
  }

  lemma {:induction false} BelowSorted(topo: seq<Op>, place: nat)
    requires NoDup(topo)
    ensures (forall a | a in Below(topo, place) :: a in topo) && SortedBy(topo, Below(topo, place))
  {
    hide Pick, NoDup, IndexOf, PlaceOf;
    BelowMembers(topo, place);
    if place > 0 {
      BelowSorted(topo, place - 1);
      BelowMembers(topo, place - 1);
      PickSorted(topo, place - 1);
      PickMembers(topo, place - 1);
      SortedAppend(topo, Below(topo, place - 1), Pick(topo, place - 1));
    }
  }

  lemma SortedAt(topo: seq<Op>, s: seq<Op>, i: nat, j: nat)
    requires (forall a | a in s :: a in topo) && SortedBy(topo, s) && i < |s| && j < |s|
    ensures i < j ==> Less(topo, s[i], s[j])
  {
  }

  lemma DistinctNoDup(topo: seq<Op>)
    requires DistinctIds(topo)
    ensures NoDup(topo)
  {
  }

  /**
   Regrouping keeps exactly the operations of this device that are not variables, each once, and
   puts one before another exactly when its list comes first or, on one list, it came first before.
   */
  lemma RegroupedExactly(topo: seq<Op>)
    requires DistinctIds(topo)
    ensures forall a :: a in LocalTopo(topo) <==> a in topo && Ordered(a)
    ensures NoDup(LocalTopo(topo)) && SortedBy(topo, LocalTopo(topo))
  {
    DistinctNoDup(topo);
    BelowMembers(topo, 8);
    BelowSorted(topo, 8);
    var s := LocalTopo(topo);
    forall i, j | 0 <= i < j < |s| ensures s[i] != s[j] {
      assert Less(topo, s[i], s[j]);
    }
  }

  /**
   The regrouped order of a topological order is topological exactly when nothing on this device
   depends on an operation of a later list.
   */
  lemma RegroupedTopologicalIff(topo: seq<Op>)
    requires DistinctIds(topo) && Topological(topo)
    ensures Topological(LocalTopo(topo)) <==>
            forall a, b | a in topo && b in topo && Ordered(a) && Ordered(b) && a.id in b.deps ::
              PlaceOf(a) <= PlaceOf(b)
  {
    hide LocalTopo, PlaceOf;
    RegroupedExactly(topo);
    var s := LocalTopo(topo);
    if Topological(s) {
      forall a, b | a in topo && b in topo && Ordered(a) && Ordered(b) && a.id in b.deps
        ensures PlaceOf(a) <= PlaceOf(b)
      {
        var i, j := IndexOf(s, a), IndexOf(s, b);
        SortedAt(topo, s, i, j);
      }
    }
    if forall a, b | a in topo && b in topo && Ordered(a) && Ordered(b) && a.id in b.deps :: PlaceOf(a) <= PlaceOf(b) {
      forall i, j | 0 <= i < |s| && 0 <= j < |s| && s[i].id in s[j].deps ensures i < j {
        var a, b := s[i], s[j];
        assert a in s && b in s;
        var x, y := IndexOf(topo, a), IndexOf(topo, b);
        assert topo[x].id in topo[y].deps;
        SortedAt(topo, s, i, j);
        SortedAt(topo, s, j, i);
      }
    }
  }

  /** No transfer of any kind and no variable. */
  predicate Inner(op: Op) {
    !op.sharedSend && !op.sharedRecv && !op.sharedGradRecv && !op.send && !op.recv && !op.variable
  }

  /**
   The regrouped order from the flags alone: receives of shared gradients, of shared tensors and of others, then
   what computes, then sends, then updates, optimizer steps and groups. Sends of shared tensors count as computing.
   */
  lemma ListsInOrder(topo: seq<Op>) returns (l: seq<seq<Op>>)
    ensures |l| == 8 && LocalTopo(topo) == l[0] + l[1] + l[2] + l[3] + l[4] + l[5] + l[6] + l[7]
    ensures forall a :: a in l[0] <==> a in topo && a.here && !a.sharedSend && !a.sharedRecv && a.sharedGradRecv
    ensures forall a :: a in l[1] <==> a in topo && a.here && !a.sharedSend && a.sharedRecv
    ensures forall a :: a in l[2] <==>
              a in topo && a.here && !a.sharedSend && !a.sharedRecv && !a.sharedGradRecv && !a.send && a.recv
    ensures forall a :: a in l[3] <==>
              a in topo && a.here && (a.sharedSend || (Inner(a) && !a.update && !a.optimizer && !a.group))
    ensures forall a :: a in l[4] <==>
              a in topo && a.here && !a.sharedSend && !a.sharedRecv && !a.sharedGradRecv && a.send
    ensures forall a :: a in l[5] <==> a in topo && a.here && Inner(a) && a.update
    ensures forall a :: a in l[6] <==> a in topo && a.here && Inner(a) && !a.update && a.optimizer
    ensures forall a :: a in l[7] <==> a in topo && a.here && Inner(a) && !a.update && !a.optimizer && a.group
  {
    l := seq(8, place requires 0 <= place < 8 => Pick(topo, place));
    EightLists(topo);
    forall place | 0 <= place < 8 ensures forall a :: a in l[place] <==> a in topo && a.here && PlaceOf(a) == place {
      PickMembers(topo, place);
    }
    hide Pick, LocalTopo;
  }

  lemma {:induction false} PickNothing(topo: seq<Op>, place: nat)
    requires forall op | op in topo && op.here :: PlaceOf(op) != place
    ensures Pick(topo, place) == []
  {
    if topo != [] {
      PickNothing(topo[..|topo| - 1], place);
    }
  }

  /** A direction with a send and without updates, optimizer steps or groups ends with a send. */
  lemma EndsWithSend(topo: seq<Op>)
    requires exists op :: op in topo && op.here && ClassOf(op) == Send
    requires forall op | op in topo && op.here :: ClassOf(op) !in {Update, Optimizer, Group}
    ensures var s := LocalTopo(topo); |s| > 0 && ClassOf(s[|s| - 1]) == Send
  {
    hide Pick, LocalTopo;
    forall place | 5 <= place < 8 ensures Pick(topo, place) == [] {
      PickNothing(topo, place);
    }
    PickMembers(topo, 4);
    EightLists(topo);
    var sends := Pick(topo, 4);
    LastOfMore(Pick(topo, 0) + Pick(topo, 1) + Pick(topo, 2) + Pick(topo, 3), sends);
    assert sends[|sends| - 1] in sends;
  }

  lemma LastOfMore(a: seq<Op>, b: seq<Op>)
    requires b != []
    ensures (a + b)[|a + b| - 1] == b[|b| - 1] && a + b + [] + [] + [] == a + b
  {
  }

  /** An operation of the given list and dependencies. */
  function Plain(id: nat, deps: set<nat>, send: bool): Op {
    Op(id, deps, true, false, false, false, send, false, false, false, false, false)
  }

  /** Something that depends on a send ends up before it. */
  lemma SendersFollowersBreak()
    ensures var topo := [Plain(0, {}, true), Plain(1, {0}, false)];
            DistinctIds(topo) && Topological(topo) && !Topological(LocalTopo(topo))
  {
    var topo := [Plain(0, {}, true), Plain(1, {0}, false)];
    hide LocalTopo;
    assert DistinctIds(topo) && Topological(topo);
    RegroupedTopologicalIff(topo);
    assert topo[0] in topo && topo[1] in topo && Ordered(topo[0]) && Ordered(topo[1]);
    assert topo[0].id in topo[1].deps && PlaceOf(topo[0]) > PlaceOf(topo[1]);
  }
}
