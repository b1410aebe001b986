/** What `combine_states` and `combine_order` compute, and that merging renumbers no device. */
module DigitMerging {
  import opened Collections
  import opened MixedRadix
  import opened DeviceMesh
  import opened MeshBuilding

  predicate Special(d: int) {
    d == PARTIAL || d == DUPLICATE
  }

  /** Reading a missing key of the state map yields 0. */
  function At(states: map<int, int>, k: int): int {
    if k in states then states[k] else 0
  }

  /** Dimension `k` after split dimension `s` has been taken away. */
  function Lower(k: int, s: int): int {
    if k > s then k - 1 else k
  }

  function RemoveDim(states: map<int, int>, s: int): map<int, int> {
    map k | k in states && k != s :: Lower(k, s) := states[k]
  }

  /** The states left after erasing the sources in turn, and the product of what was erased. */
  function Erased(src: seq<int>, states: map<int, int>): (map<int, int>, int) {
    if src == [] then (states, 1) else
      var s := src[|src| - 1];
      var (st, value) := Erased(src[..|src| - 1], states);
      if Special(s) then (st[s := 1], value * At(st, s))
      else (RemoveDim(st, s), if s in st then value * st[s] else value)
  }

  /** Where `d` ends up when the split dimensions among `src` are taken away in turn. */
  function Lowered(d: int, src: seq<int>): int {
    if src == [] then d else
      var s := src[|src| - 1];
      var d' := Lowered(d, src[..|src| - 1]);
      if s >= 0 && d' > s then d' - 1 else d'
  }

  function MergeInto(states: map<int, int>, d: int, value: int): map<int, int> {
    if Special(d) then states[d := At(states, d) * value]
    else states[d := if d in states then states[d] * value else value]
  }

  /** The states after merging the dimensions `src` into `dst`; an error if `dst` is a source. */
  function CombinedStates(src: seq<int>, dst: int, states: map<int, int>): Option<map<int, int>> {
    if dst in src then None else
      var (st, value) := Erased(src, states);
      Some(MergeInto(st, if Special(dst) then dst else Lowered(dst, src), value))
  }

  /** The places of those of `dims` that the order contains. */
  function Positions(dims: seq<int>, order: seq<int>): (ps: seq<int>)
    ensures forall i | 0 <= i < |ps| :: 0 <= ps[i] < |order|
  {
    if dims == [] then [] else
      var d := dims[|dims| - 1];
      Positions(dims[..|dims| - 1], order) + (if d in order then [IndexOf(order, d)] else [])
  }

  function Insert(x: int, s: seq<int>): (r: seq<int>)
    ensures |r| == |s| + 1
  {
    if s == [] || x <= s[0] then [x] + s else [s[0]] + Insert(x, s[1..])
  }

  function InsertionSort(s: seq<int>): (r: seq<int>)
    ensures |r| == |s|
  {
    if s == [] then [] else Insert(s[0], InsertionSort(s[1..]))
  }

  predicate Consecutive(inds: seq<int>) {
    forall i | 1 <= i < |inds| :: inds[i] == inds[0] + i
  }

  function Renumbered(order: seq<int>, src: seq<int>): (r: seq<int>)
    ensures |r| == |order|
    ensures forall i | 0 <= i < |r| :: r[i] == if order[i] > 0 then Lowered(order[i], src) else order[i]
  {
    if order == [] then [] else
      [if order[0] > 0 then Lowered(order[0], src) else order[0]] + Renumbered(order[1..], src)
  }

  function Places(src: seq<int>, dst: int, order: seq<int>): seq<int> {
    InsertionSort(Positions(src + [dst], order))
  }

  /** The order after merging `src` into `dst`; an error if they are not side by side in it. */
  function CombinedOrder(src: seq<int>, dst: int, order: seq<int>): Option<seq<int>> {
    var inds := Places(src, dst, order);
    if inds == [] then Some(order)
    else if !Consecutive(inds) || inds[0] < 0 || inds[0] + |inds| > |order| then None
    else Some(Renumbered(order[..inds[0]] + [dst] + order[inds[0] + |inds|..], src))
  }

  // ---------- merging one dimension ----------

  predicate Mergeable(order: seq<int>, s: int, dst: int) {
    s in order && dst in order ==>
      IndexOf(order, s) + 1 == IndexOf(order, dst) || IndexOf(order, dst) + 1 == IndexOf(order, s)
  }

  /** The order with the pair `s`, `dst` fused into `dst`, or `s` renamed to `dst`. */
  function MergedOrder(order: seq<int>, s: int, dst: int): seq<int>
    requires Mergeable(order, s, dst)
  {
    if s !in order then order
    else if dst !in order then order[IndexOf(order, s) := dst]
    else
      var p := MergePlace(order, s, dst);
      order[..p] + [dst] + order[p + 2..]
  }

  /** The place of the leftmost of the two merged digits. */
  function MergePlace(order: seq<int>, s: int, dst: int): (p: nat)
    requires s in order && dst in order && Mergeable(order, s, dst)
    ensures p + 1 < |order|
    ensures (order[p] == s && order[p + 1] == dst) || (order[p] == dst && order[p + 1] == s)
  {
    if IndexOf(order, s) < IndexOf(order, dst) then IndexOf(order, s) else IndexOf(order, dst)
  }

  /** The states while the merged dimensions still have their old numbers. */
  function FusedStates(states: map<int, int>, s: int, dst: int): map<int, int> {
    states[s := 1][dst := (if dst in states then states[dst] else 1) * (if s in states then states[s] else 1)]
  }

  /** A split source disappears, and the dimensions above it move down by one; the others stay with size 1. */
  lemma CombinedStatesOfOne(s: int, dst: int, states: map<int, int>)
    requires s >= PARTIAL && s != dst && PARTIAL in states && DUPLICATE in states
    ensures CombinedStates([s], dst, states) == Some(
              if Special(s) then FusedStates(states, s, dst) else RemoveDim(FusedStates(states, s, dst), s))
  {
    hide RemoveDim;
    assert [s][..0] == [] && Erased([], states) == (states, 1) && Lowered(dst, []) == dst;
    assert 1 * (if s in states then states[s] else 1) == if s in states then states[s] else 1;
    MulComm((if dst in states then states[dst] else 1), if s in states then states[s] else 1);
    if Special(s) {
      assert Erased([s], states) == (states[s := 1], states[s]);
      assert Lowered(dst, [s]) == dst;
    } else {
      assert Erased([s], states) == (RemoveDim(states, s), if s in states then states[s] else 1);
      assert Lowered(dst, [s]) == Lower(dst, s);
      RemovedAt(states, s, Lower(dst, s), dst);
      RemoveUpdated(s, dst, states, if dst in states then states[dst] else 1, if s in states then states[s] else 1);
    }
  }

  /** The one dimension that moves to `x` when `s` is taken away. */
  lemma RemovedAt(states: map<int, int>, s: int, x: int, k: int)
    requires k == if x >= s then x + 1 else x
    ensures Lower(k, s) == x
    ensures x in RemoveDim(states, s) <==> k in states
    ensures k in states ==> RemoveDim(states, s)[x] == states[k]
  {
  }

  lemma RemoveUpdated(s: int, dst: int, states: map<int, int>, u: int, v: int)
    requires s != dst
    ensures RemoveDim(states[s := 1][dst := u * v], s) == RemoveDim(states, s)[Lower(dst, s) := u * v]
  {
    hide RemoveDim;
    var w := u * v;
    var a, b := RemoveDim(states[s := 1][dst := w], s), RemoveDim(states, s)[Lower(dst, s) := w];
    forall x ensures x in a.Keys <==> x in b.Keys
             ensures x in a ==> a[x] == b[x]
    {
      var k := if x >= s then x + 1 else x;
      RemovedAt(states, s, x, k);
      RemovedAt(states[s := 1][dst := w], s, x, k);
    }
    assert a.Keys == b.Keys;
  }

  lemma PlacesOfOne(s: int, dst: int, order: seq<int>)
    ensures Places([s], dst, order) ==
            (if s in order && dst in order then
               (if IndexOf(order, s) < IndexOf(order, dst)
                then [IndexOf(order, s), IndexOf(order, dst)] else [IndexOf(order, dst), IndexOf(order, s)])
             else if s in order then [IndexOf(order, s)]
             else if dst in order then [IndexOf(order, dst)]
             else [])
  {
    hide IndexOf, InsertionSort;
    assert [s] + [dst] == [s, dst];
    PositionsOfTwo(s, dst, order);
    hide Positions;
    if s in order && dst in order {
      SortTwo(IndexOf(order, s), IndexOf(order, dst));
    } else if s in order {
      SortHere(s, order);
      assert Here(s, order) + Here(dst, order) == Here(s, order);
    } else {
      SortHere(dst, order);
      assert Here(s, order) + Here(dst, order) == Here(dst, order);
    }
  }

  function Here(d: int, order: seq<int>): seq<int> {
    if d in order then [IndexOf(order, d)] else []
  }

  lemma SortHere(d: int, order: seq<int>)
    ensures InsertionSort(Here(d, order)) == Here(d, order)
  {
    if d in order { SortOne(IndexOf(order, d)); }
  }

  lemma PositionsOfTwo(s: int, dst: int, order: seq<int>)
    ensures Positions([s, dst], order)
         == Here(s, order) + Here(dst, order)
  {
    assert [s, dst][..1] == [s] && [s][..0] == [];
    assert Positions([s], order) == Here(s, order);
  }

  lemma SortOne(i: int)
    ensures InsertionSort([i]) == [i]
  {
    assert [i][1..] == [];
  }

  lemma SortTwo(i: int, j: int)
    ensures InsertionSort([i] + [j]) == if i <= j then [i, j] else [j, i]
  {
    assert [i] + [j] == [i, j] && [i, j][1..] == [j] && [j][1..] == [];
    SortOne(j);
    assert [i] + [j] == [i, j] && [j] + [i] == [j, i];
    assert Insert(i, []) == [i];
  }

  /** `combine_order` succeeds exactly when the two dimensions are not both present and apart. */
  lemma CombinedOrderOfOne(s: int, dst: int, order: seq<int>)
    requires s != dst
    ensures CombinedOrder([s], dst, order).Some? <==> Mergeable(order, s, dst)
    ensures Mergeable(order, s, dst) ==> CombinedOrder([s], dst, order) == Some(
              if s in order || dst in order then Renumbered(MergedOrder(order, s, dst), [s]) else order)
  {
    hide IndexOf, Renumbered;
    PlacesOfOne(s, dst, order);
    if s in order && dst in order {
      TwoPlaces(s, dst, order);
    } else if s in order || dst in order {
      OnePlace(s, dst, order, IndexOf(order, if s in order then s else dst));
    }
  }

  lemma TwoPlaces(s: int, dst: int, order: seq<int>)
    requires s != dst && s in order && dst in order
    requires Places([s], dst, order)
          == if IndexOf(order, s) < IndexOf(order, dst)
             then [IndexOf(order, s), IndexOf(order, dst)] else [IndexOf(order, dst), IndexOf(order, s)]
    ensures CombinedOrder([s], dst, order).Some? <==> Mergeable(order, s, dst)
    ensures Mergeable(order, s, dst) ==>
              CombinedOrder([s], dst, order) == Some(Renumbered(MergedOrder(order, s, dst), [s]))
  {
    hide IndexOf, Places, Renumbered;
    var p, q := IndexOf(order, s), IndexOf(order, dst);
    assert p != q;
    CombinedAtTwo(s, dst, order, if p < q then p else q, if p < q then q else p);
    hide CombinedOrder;
  }

  lemma CombinedAtTwo(s: int, dst: int, order: seq<int>, p: nat, q: nat)
    requires p < q < |order| && Places([s], dst, order) == [p, q]
    ensures CombinedOrder([s], dst, order).Some? <==> q == p + 1
    ensures q == p + 1 ==>
              CombinedOrder([s], dst, order) == Some(Renumbered(order[..p] + [dst] + order[p + 2..], [s]))
  {
    hide Places, Renumbered;
    var inds: seq<int> := [p, q];
    assert Consecutive(inds) <==> inds[1] == inds[0] + 1;
    hide Consecutive;
  }

  lemma CombinedAtOne(s: int, dst: int, order: seq<int>, p: nat)
    requires p < |order| && Places([s], dst, order) == [p]
    ensures CombinedOrder([s], dst, order) == Some(Renumbered(order[p := dst], [s]))
  {
    hide Places, Renumbered;
    assert order[..p] + [dst] + order[p + 1..] == order[p := dst];
  }

  lemma OnePlace(s: int, dst: int, order: seq<int>, p: nat)
    requires s != dst && !(s in order && dst in order) && p < |order|
    requires s in order ==> p == IndexOf(order, s)
    requires dst in order ==> order[p] == dst
    requires Places([s], dst, order) == [p] && (s in order || dst in order)
    ensures CombinedOrder([s], dst, order) == Some(Renumbered(MergedOrder(order, s, dst), [s]))
  {
    hide IndexOf, Places, Renumbered;
    CombinedAtOne(s, dst, order, p);
    hide CombinedOrder;
    assert dst in order ==> order[p := dst] == order;
  }

  /** Taking away a partial or duplicate dimension renumbers nothing. */
  lemma SpecialRenumbersNothing(s: int, dst: int, order: seq<int>)
    requires Special(s) && s != dst && Mergeable(order, s, dst)
    ensures CombinedOrder([s], dst, order) == Some(MergedOrder(order, s, dst))
  {
    hide *;
    CombinedOrderOfOne(s, dst, order);
    RenumberedBySpecial(s, MergedOrder(order, s, dst));
    if s !in order { UnmergedOrder(order, s, dst); }
  }

  lemma RenumberedBySpecial(s: int, order: seq<int>)
    requires Special(s)
    ensures Renumbered(order, [s]) == order
  {
    assert forall d :: Lowered(d, [s]) == d by { assert [s][..0] == []; }
    hide Lowered;
  }

  lemma UnmergedOrder(order: seq<int>, s: int, dst: int)
    requires s !in order
    ensures Mergeable(order, s, dst) && MergedOrder(order, s, dst) == order
  {
  }

  // ---------- the merged mesh ----------

  function MergedStates(m: Mesh, s: int, dst: int): map<int, int> {
    FusedStates(m.states, s, dst)
  }

  lemma MergedOrderIsOrder(m: Mesh, s: int, dst: int)
    requires m.Valid() && s != dst && Mergeable(m.order, s, dst)
    ensures NoDup(MergedOrder(m.order, s, dst))
    ensures forall d :: d in MergedOrder(m.order, s, dst)
                   <==> (d in m.order && d != s) || (d == dst && s in m.order)
  {
    hide Prod, Pick;
    var o := MergedOrder(m.order, s, dst);
    if s in m.order && dst in m.order {
      var p := MergePlace(m.order, s, dst);
      var a, b := m.order[..p], m.order[p + 2..];
      assert m.order == a + [m.order[p], m.order[p + 1]] + b;
      FusedMembers(a, m.order[p], m.order[p + 1], b, dst);
    } else if s in m.order {
      RenamedMembers(m.order, IndexOf(m.order, s), dst);
    }
  }

  lemma FusedMembers(a: seq<int>, u: int, v: int, b: seq<int>, dst: int)
    requires NoDup(a + [u, v] + b) && (dst == u || dst == v)
    ensures NoDup(a + [dst] + b)
    ensures forall d :: d in a + [dst] + b <==> d in a + [u, v] + b && (d == dst || (d != u && d != v))
  {
    var l, r := a + [u, v] + b, a + [dst] + b;
    var n := |a|;
    assert l[n] == u && l[n + 1] == v;
    forall i, j | 0 <= i < j < |r| ensures r[i] != r[j] {
      var i' := if i < n then i else if i == n then (if dst == u then n else n + 1) else i + 1;
      var j' := if j < n then j else if j == n then (if dst == u then n else n + 1) else j + 1;
      assert r[i] == l[i'] && r[j] == l[j'];
    }
    forall i | 0 <= i < n ensures a[i] != u && a[i] != v {
      assert l[i] == a[i] && l[i] != l[n] && l[i] != l[n + 1];
    }
    forall i | 0 <= i < |b| ensures b[i] != u && b[i] != v {
      assert l[n + 2 + i] == b[i] && l[n] != l[n + 2 + i] && l[n + 1] != l[n + 2 + i];
    }
  }

  lemma RenamedMembers(order: seq<int>, p: nat, dst: int)
    requires NoDup(order) && p < |order| && dst !in order
    ensures NoDup(order[p := dst])
    ensures forall d :: d in order[p := dst] <==> (d in order && d != order[p]) || d == dst
  {
    var r := order[p := dst];
    assert r[p] == dst;
    forall d | d in order && d != order[p] ensures d in r {
      var i := IndexOf(order, d);
      assert r[i] == d;
    }
    forall d | d in r ensures (d in order && d != order[p]) || d == dst {
      var i := IndexOf(r, d);
    }
  }

  /** The radices of the merged order: the two fused ones are multiplied, nothing else changes. */
  ghost function MergedRadices(m: Mesh, s: int, dst: int): (rs: seq<nat>)
    requires m.Valid() && s != dst && Mergeable(m.order, s, dst)
  {
    hide Prod, Pick;
    if s in m.order && dst in m.order then Fused(m.Radices(), MergePlace(m.order, s, dst)) else m.Radices()
  }

  ghost function Fused(rs: seq<nat>, p: nat): seq<nat>
    requires p + 1 < |rs|
  {
    rs[..p] + [rs[p] * rs[p + 1]] + rs[p + 2..]
  }

  lemma PairRadices(m: Mesh, p: nat, s: int, dst: int)
    requires m.Valid() && p + 1 < |m.order| && s != dst
    requires (m.order[p] == s && m.order[p + 1] == dst) || (m.order[p] == dst && m.order[p + 1] == s)
    ensures s in m.states
    ensures HasRadices(MergedStates(m, s, dst), m.order[..p] + [dst] + m.order[p + 2..], Fused(m.Radices(), p))
  {
    var o, st, rs := m.order[..p] + [dst] + m.order[p + 2..], MergedStates(m, s, dst), m.Radices();
    hide Prod, Pick, FusedStates, Mesh.Radices, Mesh.Valid, Fused;
    PairSize(m, p, s, dst);
    FusedAt(rs, p);
    forall i | 0 <= i < |o| ensures o[i] in st && st[o[i]] > 1 && st[o[i]] == Fused(rs, p)[i] {
      if i != p { PairOther(m, p, s, dst, o, i); }
    }
  }

  lemma FusedAt(rs: seq<nat>, p: nat)
    requires p + 1 < |rs|
    ensures |Fused(rs, p)| == |rs| - 1 && Fused(rs, p)[p] == rs[p] * rs[p + 1]
    ensures forall i | 0 <= i < |rs| - 1 && i != p :: Fused(rs, p)[i] == rs[if i < p then i else i + 1]
  {
  }

  lemma PairOther(m: Mesh, p: nat, s: int, dst: int, o: seq<int>, i: nat)
    requires m.Valid() && p + 1 < |m.order| && s != dst
    requires (m.order[p] == s && m.order[p + 1] == dst) || (m.order[p] == dst && m.order[p + 1] == s)
    requires o == m.order[..p] + [dst] + m.order[p + 2..] && i < |o| && i != p
    ensures var i' := if i < p then i else i + 1;
            && i' < |m.Radices()| && o[i] in MergedStates(m, s, dst)
            && MergedStates(m, s, dst)[o[i]] == m.Radices()[i'] > 1
  {
    hide *;
    var i' := if i < p then i else i + 1;
    assert o[i] == m.order[i'];
    OtherSize(m, p, s, dst, i');
  }

  /** The pair's sizes are multiplied. */
  lemma PairSize(m: Mesh, p: nat, s: int, dst: int)
    requires m.Valid() && p + 1 < |m.order| && s != dst
    requires (m.order[p] == s && m.order[p + 1] == dst) || (m.order[p] == dst && m.order[p + 1] == s)
    ensures |m.Radices()| == |m.order| && s in m.states && dst in MergedStates(m, s, dst)
    ensures MergedStates(m, s, dst)[dst] == m.Radices()[p] * m.Radices()[p + 1] > 1
  {
    hide Prod, Pick;
    var u, v := m.Radices()[p], m.Radices()[p + 1];
    assert u > 1 && v > 1;
    assert MergedStates(m, s, dst)[dst] == u * v || MergedStates(m, s, dst)[dst] == v * u;
    hide *;
    MulComm(u, v);
    MulMono(1, u, v);
  }

  /** Nothing else changes. */
  lemma OtherSize(m: Mesh, p: nat, s: int, dst: int, i: nat)
    requires m.Valid() && p + 1 < |m.order| && i < |m.order| && i != p && i != p + 1
    requires (m.order[p] == s && m.order[p + 1] == dst) || (m.order[p] == dst && m.order[p + 1] == s)
    ensures i < |m.Radices()| && m.order[i] in MergedStates(m, s, dst)
    ensures MergedStates(m, s, dst)[m.order[i]] == m.Radices()[i] > 1
  {
    hide Prod, Pick;
    assert m.order[i] != m.order[p] && m.order[i] != m.order[p + 1];
  }

  lemma RenamedRadices(m: Mesh, s: int, dst: int)
    requires m.Valid() && s in m.order && dst !in m.order
    ensures s in m.states
    ensures HasRadices(MergedStates(m, s, dst), m.order[IndexOf(m.order, s) := dst], m.Radices())
  {
    hide Prod, Pick, IndexOf;
    var p := IndexOf(m.order, s);
    assert m.Dim(dst) == 1;
    forall i | 0 <= i < |m.order| && i != p ensures m.order[i] != s && m.order[i] != dst {
      assert m.order[i] in m.order && m.order[i] != m.order[p];
    }
  }

  lemma UnmergedRadices(m: Mesh, s: int, dst: int)
    requires m.Valid() && s !in m.order
    ensures HasRadices(MergedStates(m, s, dst), m.order, m.Radices())
  {
    hide Prod, Pick;
    assert m.Dim(s) == 1;
    forall i | 0 <= i < |m.order| ensures m.order[i] != s {
      assert m.order[i] in m.order;
    }
  }

  lemma MergedRadicesAre(m: Mesh, s: int, dst: int)
    requires m.Valid() && s != dst && Mergeable(m.order, s, dst)
    ensures HasRadices(MergedStates(m, s, dst), MergedOrder(m.order, s, dst), MergedRadices(m, s, dst))
    ensures AllPos(MergedRadices(m, s, dst)) && Prod(MergedRadices(m, s, dst)) == m.deviceNum
  {
    hide HasRadices, Pick, IndexOf;
    if s !in m.order {
      UnmergedRadices(m, s, dst);
    } else if dst !in m.order {
      RenamedRadices(m, s, dst);
    } else {
      var p := MergePlace(m.order, s, dst);
      PairRadices(m, p, s, dst);
      FusedProd(m.Radices(), p);
      FusedPos(m.Radices(), p);
    }
  }

  lemma FusedProd(rs: seq<nat>, p: nat)
    requires p + 1 < |rs|
    ensures Prod(Fused(rs, p)) == Prod(rs)
  {
    hide Prod;
    var a, u, v, b := rs[..p], rs[p], rs[p + 1], rs[p + 2..];
    assert rs == a + [u, v] + b;
    FuseProdInside(a, u, v, b);
  }

  lemma FusedPos(rs: seq<nat>, p: nat)
    requires AllPos(rs) && p + 1 < |rs|
    ensures AllPos(Fused(rs, p))
  {
    MulMono(1, rs[p], rs[p + 1]);
  }

  /** The merged digits number the same devices. */
  lemma MergedIsMesh(m: Mesh, s: int, dst: int)
    requires m.Valid() && s != dst && Mergeable(m.order, s, dst)
    ensures Buildable(m.deviceNum, MergedStates(m, s, dst), MergedOrder(m.order, s, dst))
    ensures Merged(m, s, dst).Valid() && Merged(m, s, dst).deviceNum == m.deviceNum
    ensures Merged(m, s, dst).order == MergedOrder(m.order, s, dst)
    ensures Merged(m, s, dst).Radices() == MergedRadices(m, s, dst)
  {
    hide *;
    MergedOrderIsOrder(m, s, dst);
    MergedRadicesAre(m, s, dst);
    MergedKept(m, s, dst);
    RadicesPicked(MergedStates(m, s, dst), MergedOrder(m.order, s, dst), MergedRadices(m, s, dst));
    AgreeingBuild(m.deviceNum, MergedStates(m, s, dst), MergedOrder(m.order, s, dst), m.zero);
    MergedIs(m, s, dst);
  }

  lemma RadicesPicked(st: map<int, int>, o: seq<int>, rs: seq<nat>)
    requires HasRadices(st, o, rs)
    ensures (forall i | 0 <= i < |o| :: o[i] in st && st[o[i]] > 1) && Pick(st, o) == rs
  {
    hide Pick;
  }

  lemma MergedIs(m: Mesh, s: int, dst: int)
    requires Mergeable(m.order, s, dst)
    ensures Merged(m, s, dst) == Build(m.deviceNum, MergedStates(m, s, dst), MergedOrder(m.order, s, dst), m.zero)
  {
  }

  /**
   Merging a partial or duplicate dimension keeps the mesh: `combine_states` and `combine_order`
   succeed, and the mesh built from them numbers the same devices.
   */
  lemma MergeKeepsMesh(m: Mesh, s: int, dst: int)
    requires m.Valid() && Special(s) && s != dst && Mergeable(m.order, s, dst)
    ensures CombinedStates([s], dst, m.states) == Some(MergedStates(m, s, dst))
    ensures CombinedOrder([s], dst, m.order) == Some(MergedOrder(m.order, s, dst))
    ensures Buildable(m.deviceNum, MergedStates(m, s, dst), MergedOrder(m.order, s, dst))
    ensures Merged(m, s, dst).Valid() && Merged(m, s, dst).deviceNum == m.deviceNum
    ensures Merged(m, s, dst).order == MergedOrder(m.order, s, dst)
    ensures Merged(m, s, dst).Radices() == MergedRadices(m, s, dst)
  {
    hide Prod, Pick, Mergeable, MergedOrder, MergedRadices, FusedStates, CombinedStates, CombinedOrder;
    MergedIsMesh(m, s, dst);
    CombinedStatesOfOne(s, dst, m.states);
    SpecialRenumbersNothing(s, dst, m.order);
  }

  lemma MergedKept(m: Mesh, s: int, dst: int)
    requires m.Valid() && s != dst && Mergeable(m.order, s, dst)
    requires forall d :: d in MergedOrder(m.order, s, dst)
                    <==> (d in m.order && d != s) || (d == dst && s in m.order)
    ensures forall k <- MergedStates(m, s, dst) ::
              MergedStates(m, s, dst)[k] > 1 ==> k in MergedOrder(m.order, s, dst)
  {
    hide Prod, Pick, MergedOrder;
    assert s !in m.order ==> m.Dim(s) == 1;
  }

  function Merged(m: Mesh, s: int, dst: int): Mesh
    requires Mergeable(m.order, s, dst)
  {
    Build(m.deviceNum, MergedStates(m, s, dst), MergedOrder(m.order, s, dst), m.zero)
  }

  /** The coordinate the merged dimension gets from the coordinates it was merged from. */
  ghost function MergedCoord(m: Mesh, s: int, dst: int, x: nat): nat
    requires m.Valid() && (s in m.order || dst in m.order)
  {
    hide *;
    if s !in m.order then m.Coord(dst, x)
    else if dst !in m.order then m.Coord(s, x)
    else
      OrderedDim(m, s);
      OrderedDim(m, dst);
      if IndexOf(m.order, s) < IndexOf(m.order, dst) then FusedDigits(m.Coord(s, x), m.states[dst], m.Coord(dst, x))
      else FusedDigits(m.Coord(dst, x), m.states[s], m.Coord(s, x))
  }

  /** Left digit times right radix plus right digit. */
  function FusedDigits(left: nat, radix: nat, right: nat): nat {
    left * radix + right
  }

  /**
   Digit merging: every device keeps its coordinate on every other dimension, and the
   destination gets left digit times right radix plus right digit.
   */
  lemma MergeCoords(m: Mesh, s: int, dst: int, x: nat)
    requires m.Valid() && s != dst && Mergeable(m.order, s, dst)
    ensures Merged(m, s, dst).Valid()
    ensures forall d :: d in Merged(m, s, dst).order <==> (d in m.order && d != s) || (d == dst && s in m.order)
    ensures forall d <- Merged(m, s, dst).order ::
              Merged(m, s, dst).Coord(d, x) == if d == dst then MergedCoord(m, s, dst, x) else m.Coord(d, x)
  {
    MergedIsMesh(m, s, dst);
    MergedOrderIsOrder(m, s, dst);
    forall d | d in Merged(m, s, dst).order
      ensures Merged(m, s, dst).Coord(d, x) == if d == dst then MergedCoord(m, s, dst, x) else m.Coord(d, x)
    {
      MergeCoord(m, s, dst, x, d);
    }
  }

  lemma MergeCoord(m: Mesh, s: int, dst: int, x: nat, d: int)
    requires m.Valid() && s != dst && Mergeable(m.order, s, dst)
    requires Merged(m, s, dst).Valid() && d in Merged(m, s, dst).order
    requires (d in m.order && d != s) || (d == dst && s in m.order)
    requires Merged(m, s, dst).order == MergedOrder(m.order, s, dst)
    requires Merged(m, s, dst).Radices() == MergedRadices(m, s, dst)
    ensures Merged(m, s, dst).Coord(d, x) == if d == dst then MergedCoord(m, s, dst, x) else m.Coord(d, x)
  {
    hide *;
    var m' := Merged(m, s, dst);
    MergedShape(m, s, dst);
    MergedCoordIs(m, s, dst, x);
    if s in m.order && dst in m.order {
      var p := MergePlace(m.order, s, dst);
      if IndexOf(m.order, s) < IndexOf(m.order, dst) {
        MergeCoordBoth(m, m', p, s, dst, dst, x, d);
      } else {
        MergeCoordBoth(m, m', p, dst, s, dst, x, d);
      }
    } else if s in m.order {
      CoordSamePlace(m, m', IndexOf(m.order, s), x, dst, d);
    } else {
      CoordSamePlace(m, m', IndexOf(m.order, d), x, d, d);
    }
  }

  /** The merged order and radices in the three cases. */
  lemma MergedShape(m: Mesh, s: int, dst: int)
    requires m.Valid() && s != dst && Mergeable(m.order, s, dst)
    ensures var o, rs := MergedOrder(m.order, s, dst), MergedRadices(m, s, dst);
            if s in m.order && dst in m.order then
              var p := MergePlace(m.order, s, dst);
              && o == m.order[..p] + [dst] + m.order[p + 2..]
              && |m.Radices()| == |m.order| && rs == Fused(m.Radices(), p)
              && (if IndexOf(m.order, s) < IndexOf(m.order, dst) then m.order[p] == s && m.order[p + 1] == dst
                  else m.order[p] == dst && m.order[p + 1] == s)
            else
              && rs == m.Radices()
              && (s in m.order ==> o == m.order[IndexOf(m.order, s) := dst]) && (s !in m.order ==> o == m.order)
  {
    hide Prod, Pick, IndexOf, Fused;
  }

  lemma MergedCoordIs(m: Mesh, s: int, dst: int, x: nat)
    requires m.Valid() && s != dst
    ensures s !in m.order && dst in m.order ==> MergedCoord(m, s, dst, x) == m.Coord(dst, x)
    ensures s in m.order && dst !in m.order ==> MergedCoord(m, s, dst, x) == m.Coord(s, x)
    ensures s in m.order && dst in m.order ==>
              MergedCoord(m, s, dst, x) ==
              if IndexOf(m.order, s) < IndexOf(m.order, dst) then m.Coord(s, x) * m.states[dst] + m.Coord(dst, x)
              else m.Coord(dst, x) * m.states[s] + m.Coord(s, x)
  {
    hide Prod, Pick, IndexOf, Digits, Mesh.Coord;
  }

  lemma CoordSamePlace(m: Mesh, m': Mesh, p: nat, x: nat, dst: int, d: int)
    requires m.Valid() && m'.Valid() && m'.Radices() == m.Radices()
    requires p < |m.order| && m'.order == m.order[p := dst] && d in m'.order
    ensures dst in m'.order && m'.Coord(dst, x) == m.Coord(m.order[p], x)
    ensures d != dst ==> d in m.order && m'.Coord(d, x) == m.Coord(d, x)
  {
    hide Prod, Pick, Digits, IndexOf;
    var i := IndexOf(m'.order, d);
    CoordAt(m', i, x);
    CoordAt(m, i, x);
    CoordAt(m', p, x);
    CoordAt(m, p, x);
  }

  lemma MergeCoordBoth(m: Mesh, m': Mesh, p: nat, l: int, r: int, dst: int, x: nat, d: int)
    requires m.Valid() && m'.Valid() && d in m'.order && l in m.order && r in m.order
    requires p + 1 < |m.order| && m.order[p] == l && m.order[p + 1] == r && (dst == l || dst == r)
    requires m'.order == m.order[..p] + [dst] + m.order[p + 2..]
    requires m'.Radices() == Fused(m.Radices(), p)
    ensures d == dst ==> m'.Coord(d, x) == m.Coord(l, x) * m.states[r] + m.Coord(r, x)
    ensures d != dst ==> d in m.order && m'.Coord(d, x) == m.Coord(d, x)
  {
    hide Prod, Pick, Digits, IndexOf, Fused;
    var i := IndexOf(m'.order, d);
    FusedPlaces(m, m', p, dst, i);
    FusedPos(m.Radices(), p);
    CoordAt(m', i, x);
    if i == p {
      FusedDigit(m.Radices(), p, x);
      CoordAt(m, p, x);
      CoordAt(m, p + 1, x);
    } else {
      hide Mesh.Valid, Mesh.Coord;
      OtherDigit(m.Radices(), p, x, i);
      CoordAt(m, if i < p then i else i + 1, x);
    }
  }

  lemma FusedPlaces(m: Mesh, m': Mesh, p: nat, dst: int, i: nat)
    requires NoDup(m'.order) && p + 1 < |m.order| && m'.order == m.order[..p] + [dst] + m.order[p + 2..]
    requires i < |m'.order|
    ensures m'.order[p] == dst && (m'.order[i] == dst <==> i == p)
    ensures i != p ==> m'.order[i] == m.order[if i < p then i else i + 1]
  {
  }

  lemma FusedDigit(rs: seq<nat>, p: nat, x: nat)
    requires p + 1 < |rs| && AllPos(rs) && AllPos(Fused(rs, p))
    ensures Digits(Fused(rs, p), x)[p] == Digits(rs, x)[p] * rs[p + 1] + Digits(rs, x)[p + 1]
  {
    assert rs == rs[..p] + [rs[p], rs[p + 1]] + rs[p + 2..];
    DigitsFuse(rs[..p], rs[p], rs[p + 1], rs[p + 2..], x);
    hide Digits, Prod;
  }

  lemma OtherDigit(rs: seq<nat>, p: nat, x: nat, i: nat)
    requires p + 1 < |rs| && AllPos(rs) && AllPos(Fused(rs, p)) && i < |rs| - 1 && i != p
    ensures Digits(Fused(rs, p), x)[i] == Digits(rs, x)[if i < p then i else i + 1]
  {
    assert rs == rs[..p] + [rs[p], rs[p + 1]] + rs[p + 2..];
    DigitsFuse(rs[..p], rs[p], rs[p + 1], rs[p + 2..], x);
    hide Digits, Prod;
  }
}
