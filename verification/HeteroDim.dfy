/**
 Moving the heterogeneous dimension of a union: every member's local layout survives.

 A member stacks one local layout per member on the new dimension; taking the local layout
 divides that dimension by the number of members again, and the two steps cancel.
 */
module HeteroDim {
  import opened Collections
  import opened MixedRadix
  import opened DeviceMesh
  import opened MeshBuilding
  import opened SubMesh

  /** The states and order of a local mesh with `num` copies stacked on dimension `h`. */
  function RaisedStates(l: Mesh, h: int, num: int): map<int, int> {
    l.states[h := l.Dim(h) * num]
  }

  function RaisedOrder(l: Mesh, h: int): seq<int> {
    if h in l.order then l.order else [h] + l.order
  }

  function Raised(m: Mesh, l: Mesh, h: int, num: int): Mesh {
    Build(m.deviceNum, RaisedStates(l, h, num), RaisedOrder(l, h), m.zero)
  }

  /** The radices of the raised mesh: the leading one is multiplied by `num`. */
  ghost function RaisedRadices(l: Mesh, h: int, num: nat): seq<nat>
    requires l.Valid()
  {
    hide Prod, Pick;
    if h in l.order && |l.order| > 0 then [l.Radices()[0] * num] + l.Radices()[1..] else [num] + l.Radices()
  }

  lemma RaisedHasRadices(l: Mesh, h: int, num: nat)
    requires l.Valid() && num > 1 && RaisedOrder(l, h)[0] == h
    ensures NoDup(RaisedOrder(l, h))
    ensures HasRadices(RaisedStates(l, h, num), RaisedOrder(l, h), RaisedRadices(l, h, num))
    ensures forall k <- RaisedStates(l, h, num) :: RaisedStates(l, h, num)[k] > 1 ==> k in RaisedOrder(l, h)
  {
    if h in l.order {
      RaisedInPlace(l, h, num);
    } else {
      RaisedInFront(l, h, num);
    }
  }

  lemma RaisedInPlace(l: Mesh, h: int, num: nat)
    requires l.Valid() && num > 1 && h in l.order && l.order[0] == h
    ensures HasRadices(RaisedStates(l, h, num), l.order, RaisedRadices(l, h, num))
    ensures forall k <- RaisedStates(l, h, num) :: RaisedStates(l, h, num)[k] > 1 ==> k in l.order
  {
    hide Prod, Pick;
    assert l.states[h] * num > 1 by { MulMono(1, l.states[h], num); }
    forall i | 0 < i < |l.order| ensures l.order[i] != h {
      assert l.order[0] != l.order[i];
    }
  }

  lemma RaisedInFront(l: Mesh, h: int, num: nat)
    requires l.Valid() && num > 1 && h !in l.order
    ensures NoDup([h] + l.order)
    ensures HasRadices(RaisedStates(l, h, num), [h] + l.order, RaisedRadices(l, h, num))
    ensures forall k <- RaisedStates(l, h, num) :: RaisedStates(l, h, num)[k] > 1 ==> k in [h] + l.order
  {
    hide Prod, Pick, HasRadices;
    assert l.Dim(h) == 1;
    forall i | 0 <= i < |l.order| ensures l.order[i] != h {
      assert l.order[i] in l.order;
    }
    assert HasRadices(l.states[h := num], l.order, l.Radices()) by { PlainRadices(l, h, num); }
    ConsRadices(l.states[h := num], h, l.order, l.Radices());
  }

  lemma PlainRadices(l: Mesh, h: int, num: nat)
    requires l.Valid() && forall i | 0 <= i < |l.order| :: l.order[i] != h
    ensures HasRadices(l.states[h := num], l.order, l.Radices())
  {
    hide Prod, Pick;
  }

  lemma ConsRadices(st: map<int, int>, h: int, o: seq<int>, rs: seq<nat>)
    requires HasRadices(st, o, rs) && h in st && st[h] > 1
    ensures HasRadices(st, [h] + o, [st[h] as nat] + rs)
  {
  }

  lemma RaisedProduct(l: Mesh, h: int, num: nat)
    requires l.Valid()
    ensures Prod(RaisedRadices(l, h, num)) == num * l.deviceNum
  {
    hide Prod, Pick;
    var rs := l.Radices();
    if h in l.order && |l.order| > 0 {
      assert rs == [rs[0]] + rs[1..];
      LeadingFactor(rs[0], num, rs[1..]);
    } else {
      RankCons(num, rs, 0, rs);
    }
  }

  lemma LeadingFactor(r: nat, num: nat, rest: seq<nat>)
    ensures Prod([r * num] + rest) == num * Prod([r] + rest)
  {
    RankCons(r * num, rest, 0, rest);
    RankCons(r, rest, 0, rest);
    MulComm(r, num);
    MulAssoc(num, r, Prod(rest));
  }

  /**
   Moving the heterogeneous dimension of one member from `h` to `h2`: the member keeps its
   device count and its `get_local` is the very same mesh.
   */
  lemma MoveKeepsLocal(m: Mesh, h: int, num: nat, span: nat, h2: int)
    requires Cut(m, h, num, span) && num > 1
    requires RaisedOrder(LocalMesh(m, h, num), h2)[0] == h2
    ensures var l := LocalMesh(m, h, num);
            && l.Valid() && Buildable(m.deviceNum, RaisedStates(l, h2, num), RaisedOrder(l, h2))
            && l.Dim(h2) >= 1 && Cut(Raised(m, l, h2, num), h2, num, l.Dim(h2))
            && Raised(m, l, h2, num).order[0] == h2
            && Raised(m, l, h2, num).deviceNum == m.deviceNum
            && LocalMesh(Raised(m, l, h2, num), h2, num) == l
  {
    hide Prod, Pick, LocalMesh, PartOrder, PartRadices, Raised, RaisedStates, HasRadices;
    LocalIsMesh(m, h, num, span);
    var l := LocalMesh(m, h, num);
    PartDevices(m, h, num, span);
    RaisedIsMesh(m, l, h2, num);
    LocalOfRaised(m, l, h2, num);
  }

  lemma PartDevices(m: Mesh, h: int, num: nat, span: nat)
    requires Cut(m, h, num, span)
    ensures num * (m.deviceNum / num) == m.deviceNum
    ensures LocalMesh(m, h, num).zero == m.zero
  {
    hide Prod, Pick;
    GroupSize(m, h, num, span, 0);
    hide Group, Mesh.Valid;
    var k := |Group(m, h, span, 0)|;
    DivModOf(k, num, 0);
    MulComm(k, num);
  }

  lemma RaisedIsMesh(m: Mesh, l: Mesh, h: int, num: nat)
    requires l.Valid() && num > 1 && RaisedOrder(l, h)[0] == h && num * l.deviceNum == m.deviceNum
    ensures Buildable(m.deviceNum, RaisedStates(l, h, num), RaisedOrder(l, h))
    ensures Raised(m, l, h, num).Valid() && Raised(m, l, h, num).deviceNum == m.deviceNum
    ensures Raised(m, l, h, num).order == RaisedOrder(l, h)
    ensures Raised(m, l, h, num).states == Normalize(RaisedStates(l, h, num))
    ensures Raised(m, l, h, num).zero == m.zero
  {
    hide Prod, Pick, RaisedStates, RaisedOrder, Mesh.Valid, RaisedRadices;
    RaisedHasRadices(l, h, num);
    RaisedProduct(l, h, num);
    assert Pick(RaisedStates(l, h, num), RaisedOrder(l, h)) == RaisedRadices(l, h, num);
    AgreeingBuild(m.deviceNum, RaisedStates(l, h, num), RaisedOrder(l, h), m.zero);
  }

  lemma LocalOfRaised(m: Mesh, l: Mesh, h: int, num: nat)
    requires l.Valid() && num > 1 && RaisedOrder(l, h)[0] == h && num * l.deviceNum == m.deviceNum && l.zero == m.zero
    requires Raised(m, l, h, num).Valid() && Raised(m, l, h, num).deviceNum == m.deviceNum
    requires Raised(m, l, h, num).order == RaisedOrder(l, h)
    requires Raised(m, l, h, num).states == Normalize(RaisedStates(l, h, num))
    requires Raised(m, l, h, num).zero == m.zero
    ensures l.Dim(h) >= 1 && Cut(Raised(m, l, h, num), h, num, l.Dim(h))
    ensures LocalMesh(Raised(m, l, h, num), h, num) == l
  {
    RaisedDim(l, h, num);
    var m2, span := Raised(m, l, h, num), l.Dim(h);
    assert m2.order[0] == h && h in m2.order;
    hide *;
    CutIs(m2, h, num, span);
    LocalIsMesh(m2, h, num, span);
    LocalStatesBack(l, h, num);
    LocalOrderBack(m2, l, h, span);
    SizePositive(l);
    ShareOf(num, l.deviceNum, m.deviceNum);
    LocalZero(m2, h, num);
  }

  lemma CutIs(m: Mesh, h: int, num: nat, span: nat)
    requires m.Valid() && h in m.order && h in m.states && num >= 1 && span >= 1 && m.states[h] == num * span
    ensures Cut(m, h, num, span)
  {
  }

  lemma ShareOf(num: nat, k: int, n: int)
    requires num >= 1 && k >= 0 && num * k == n
    ensures n / num == k
  {
    MulComm(num, k);
    DivModOf(k, num, 0);
  }

  lemma LocalZero(m: Mesh, h: int, num: nat)
    requires h in m.states && num >= 1
    ensures LocalMesh(m, h, num).zero == m.zero
  {
  }

  lemma LocalStatesBack(l: Mesh, h: int, num: nat)
    requires l.Valid() && num > 1
    ensures Normalize(Normalize(RaisedStates(l, h, num))[h := l.Dim(h)]) == l.states
  {
    hide Prod, Pick;
    ValidKept(l);
    MulMono(1, l.Dim(h), num);
    hide Normalize;
    StatesBack(l.states, h, l.Dim(h), l.Dim(h) * num);
  }

  lemma LocalOrderBack(m2: Mesh, l: Mesh, h: int, span: nat)
    requires l.Valid() && m2.order == RaisedOrder(l, h) && m2.order[0] == h && span == l.Dim(h)
    ensures PartOrder(m2, h, span) == l.order
  {
    hide Prod, Pick;
    if h in l.order {
      assert l.order[0] == h && l.states[l.order[0]] > 1;
    } else {
      assert IndexOf(m2.order, h) == 0;
      assert m2.order[..0] == [] && m2.order[1..] == l.order;
    }
  }

  lemma RaisedDim(l: Mesh, h: int, num: nat)
    requires l.Valid() && num > 1
    ensures l.Dim(h) >= 1
    ensures h in Normalize(RaisedStates(l, h, num)) && Normalize(RaisedStates(l, h, num))[h] == num * l.Dim(h)
  {
    hide Prod, Pick;
    MulComm(num, l.Dim(h));
    MulMono(1, l.Dim(h), num);
  }

  /** Raising a dimension and lowering it again gives back normalized states. */
  lemma StatesBack(st: map<int, int>, h: int, span: int, raised: int)
    requires Normalize(st) == st && span >= 1 && raised > 1
    requires span == if h in st then st[h] else 1
    ensures Normalize(Normalize(st[h := raised])[h := span]) == st
  {
    var up := Normalize(st[h := raised]);
    var back := Normalize(up[h := span]);
    forall k ensures k in back <==> k in st
             ensures k in st ==> back[k] == st[k]
    {
      NormalizeAt(st, k);
      NormalizeAt(st[h := raised], k);
      NormalizeAt(up[h := span], k);
    }
    hide Normalize;
    assert back.Keys == st.Keys;
  }
}
