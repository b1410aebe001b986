/** Merging a split dimension: the dimensions above it move down by one. */
module SplitMerging {
  import opened Collections
  import opened MixedRadix
  import opened DeviceMesh
  import opened MeshBuilding
  import opened DigitMerging

  function LoweredOrder(order: seq<int>, s: int): (r: seq<int>)
    ensures |r| == |order|
    ensures forall i | 0 <= i < |r| :: r[i] == Lower(order[i], s)
  {
    if order == [] then [] else [Lower(order[0], s)] + LoweredOrder(order[1..], s)
  }

  lemma LoweredMembers(order: seq<int>, s: int)
    ensures forall d <- order :: Lower(d, s) in LoweredOrder(order, s)
    ensures NoDup(order) && s !in order ==> NoDup(LoweredOrder(order, s))
  {
    hide LoweredOrder;
    forall d | d in order ensures Lower(d, s) in LoweredOrder(order, s) {
      var i := IndexOf(order, d);
      assert LoweredOrder(order, s)[i] == Lower(d, s);
    }
  }

  lemma RenumberedLowers(order: seq<int>, s: int)
    requires s >= 0
    ensures Renumbered(order, [s]) == LoweredOrder(order, s)
  {
    assert forall d :: Lowered(d, [s]) == Lower(d, s) by { assert [s][..0] == []; }
    hide LoweredOrder, Renumbered, Lowered;
    assert Renumbered(order, [s]) == LoweredOrder(order, s);
  }

  /** Dimensions below `s` keep their numbers. */
  lemma LowersNothing(order: seq<int>, s: int)
    requires forall d <- order :: d <= s
    ensures LoweredOrder(order, s) == order
  {
    hide LoweredOrder;
    forall i | 0 <= i < |order| ensures LoweredOrder(order, s)[i] == order[i] {
      assert order[i] in order;
    }
  }

  /** The mesh `m` after its dimension `s`, which splits nothing, is taken away. */
  function Without(m: Mesh, s: int): Mesh {
    Mesh(m.deviceNum, Normalize(RemoveDim(m.states, s)), LoweredOrder(m.order, s), m.zero)
  }

  /** The mesh after merging a split dimension. */
  function SplitMerged(m: Mesh, s: int, dst: int): Mesh
    requires Mergeable(m.order, s, dst)
  {
    Without(Merged(m, s, dst), s)
  }

  lemma LoweredSizes(st: map<int, int>, order: seq<int>, s: int)
    requires s >= 0 && s !in order
    requires forall i | 0 <= i < |order| :: order[i] in st && st[order[i]] > 1
    requires forall k <- st :: st[k] > 1 ==> k in order
    ensures forall i | 0 <= i < |order| ::
              LoweredOrder(order, s)[i] in RemoveDim(st, s)
              && RemoveDim(st, s)[LoweredOrder(order, s)[i]] == st[order[i]]
    ensures forall k <- RemoveDim(st, s) :: RemoveDim(st, s)[k] > 1 ==> k in LoweredOrder(order, s)
  {
    hide LoweredOrder, RemoveDim;
    forall i | 0 <= i < |order|
      ensures Lower(order[i], s) in RemoveDim(st, s) && RemoveDim(st, s)[Lower(order[i], s)] == st[order[i]]
    {
      assert order[i] in order;
      RemovedAt(st, s, Lower(order[i], s), order[i]);
    }
    forall x | x in RemoveDim(st, s) && RemoveDim(st, s)[x] > 1 ensures x in LoweredOrder(order, s) {
      var k := if x >= s then x + 1 else x;
      RemovedAt(st, s, x, k);
      LoweredMembers(order, s);
    }
  }

  /** Taking an unsplit dimension away gives every digit a new name and nothing else. */
  lemma WithoutIsMesh(m: Mesh, st: map<int, int>, s: int)
    requires m.Valid() && s >= 0 && s !in m.order && m.states == Normalize(st)
    requires PARTIAL in st && DUPLICATE in st
    ensures Buildable(m.deviceNum, RemoveDim(st, s), LoweredOrder(m.order, s))
    ensures Build(m.deviceNum, RemoveDim(st, s), LoweredOrder(m.order, s), m.zero) == Without(m, s)
    ensures Without(m, s).Valid() && Without(m, s).Radices() == m.Radices()
  {
    hide Prod, Pick, RemoveDim, LoweredOrder, Normalize, Build;
    NormalKeeps(st, m);
    LoweredSizes(st, m.order, s);
    LoweredMembers(m.order, s);
    var st', o := RemoveDim(st, s), LoweredOrder(m.order, s);
    assert Pick(st', o) == m.Radices();
    AgreeingBuild(m.deviceNum, st', o, m.zero);
    RemoveNormal(st, s);
  }

  lemma NormalKeeps(st: map<int, int>, m: Mesh)
    requires m.Valid() && m.states == Normalize(st)
    ensures forall i | 0 <= i < |m.order| ::
              m.order[i] in st && st[m.order[i]] > 1 && st[m.order[i]] == m.states[m.order[i]]
    ensures forall k <- st :: st[k] > 1 ==> k in m.order
  {
    hide Prod, Pick, Normalize;
    forall k ensures k in m.states && m.states[k] > 1 <==> k in st && st[k] > 1
             ensures k in st && st[k] > 1 ==> st[k] == m.states[k] {
      NormalizeAt(st, k);
    }
  }

  lemma RemoveNormal(st: map<int, int>, s: int)
    requires s >= 0
    ensures Normalize(RemoveDim(Normalize(st), s)) == Normalize(RemoveDim(st, s))
  {
    hide RemoveDim, Normalize;
    var a, b := RemoveDim(Normalize(st), s), RemoveDim(st, s);
    forall x ensures x in Normalize(a).Keys <==> x in Normalize(b).Keys
             ensures x in Normalize(a) ==> Normalize(a)[x] == Normalize(b)[x]
    {
      var k := if x >= s then x + 1 else x;
      RemovedAt(Normalize(st), s, x, k);
      RemovedAt(st, s, x, k);
      NormalizeAt(st, k);
      NormalizeAt(a, x);
      NormalizeAt(b, x);
    }
    assert Normalize(a).Keys == Normalize(b).Keys;
  }

  /** What `combine_states` and `combine_order` give for a split source. */
  lemma SplitCombined(m: Mesh, s: int, dst: int)
    requires m.Valid() && s >= 0 && s != dst && Mergeable(m.order, s, dst)
    ensures CombinedStates([s], dst, m.states) == Some(RemoveDim(MergedStates(m, s, dst), s))
    ensures CombinedOrder([s], dst, m.order) == Some(
              if s in m.order || dst in m.order then LoweredOrder(MergedOrder(m.order, s, dst), s) else m.order)
  {
    hide Prod, Pick, CombinedStates, CombinedOrder, RemoveDim, FusedStates, MergedOrder, Mergeable;
    CombinedStatesOfOne(s, dst, m.states);
    CombinedOrderOfOne(s, dst, m.order);
    RenumberedLowers(MergedOrder(m.order, s, dst), s);
  }

  /**
   Merging a split dimension gives states and an order that a mesh can be built from exactly when
   the merge touches the order or nothing above the source is split: an untouched order is handed
   back with its old dimension numbers, while the states are renumbered.
   */
  lemma SplitMergeBuildsIff(m: Mesh, s: int, dst: int)
    requires m.Valid() && s >= 0 && s != dst && Mergeable(m.order, s, dst)
    ensures CombinedStates([s], dst, m.states).Some? && CombinedOrder([s], dst, m.order).Some?
    ensures var st, o := CombinedStates([s], dst, m.states).value, CombinedOrder([s], dst, m.order).value;
              (Buildable(m.deviceNum, st, o) <==> s in m.order || dst in m.order || forall d <- m.order :: d < s)
              && (Buildable(m.deviceNum, st, o) ==> Build(m.deviceNum, st, o, m.zero) == SplitMerged(m, s, dst))
  {
    hide Prod, Pick, Mesh.Valid, CombinedStates, CombinedOrder, RemoveDim, FusedStates, LoweredOrder, MergedOrder;
    hide Mergeable, Buildable, Build, Without, Normalize;
    SplitCombined(m, s, dst);
    MergedIsMesh(m, s, dst);
    MergedAway(m, s, dst);
    WithoutIsMesh(Merged(m, s, dst), MergedStates(m, s, dst), s);
    if s !in m.order && dst !in m.order {
      UnmergedOrder(m.order, s, dst);
      if forall d <- m.order :: d < s {
        LowersNothing(m.order, s);
      } else {
        LowestAboveIsMissing(m, s, dst);
      }
    }
  }

  lemma MergedAway(m: Mesh, s: int, dst: int)
    requires m.Valid() && s != dst && Mergeable(m.order, s, dst)
    ensures s !in Merged(m, s, dst).order && Merged(m, s, dst).states == Normalize(MergedStates(m, s, dst))
    ensures Merged(m, s, dst).zero == m.zero
    ensures PARTIAL in MergedStates(m, s, dst) && DUPLICATE in MergedStates(m, s, dst)
  {
    hide Prod, Pick, MergedOrder, Normalize, BuiltOrder;
    MergedIsMesh(m, s, dst);
    MergedOrderIsOrder(m, s, dst);
  }

  /** The lowest dimension above `s` gets a number that the old order does not name. */
  lemma LowestAboveIsMissing(m: Mesh, s: int, dst: int)
    requires m.Valid() && s >= 0 && s !in m.order && dst !in m.order && s != dst && exists d <- m.order :: d >= s
    ensures !Buildable(m.deviceNum, RemoveDim(MergedStates(m, s, dst), s), m.order)
  {
    hide Prod, Pick, SizeProduct, RemoveDim;
    var st := MergedStates(m, s, dst);
    var above := set d | d in m.order && d >= s;
    var e :| e in m.order && e >= s;
    assert e in above;
    var k := MinExists(above);
    assert k > s && k in m.states && st[k] == m.states[k] > 1 by {
      var i := IndexOf(m.order, k);
      assert m.order[i] in m.states;
    }
    RemovedAt(st, s, k - 1, k);
    assert k - 1 !in above;
    assert k - 1 in Kept(RemoveDim(st, s));
  }

  /** A gradient split along dimension 1 alone: making its dimension 0 partial is refused. */
  lemma UnsplitSourceRefused(m: Mesh)
    requires m == Mesh(2, map[PARTIAL := 1, DUPLICATE := 1, 1 := 2], [1], false)
    ensures m.Valid() && CombinedStates([0], PARTIAL, m.states).Some? && CombinedOrder([0], PARTIAL, m.order).Some?
    ensures !Buildable(2, CombinedStates([0], PARTIAL, m.states).value, CombinedOrder([0], PARTIAL, m.order).value)
  {
    assert m.Valid() by { TwoAlongOne(m); }
    hide *;
    UnmergedOrder(m.order, 0, PARTIAL);
    assert 1 in m.order;
    SplitMergeBuildsIff(m, 0, PARTIAL);
  }

  lemma TwoAlongOne(m: Mesh)
    requires m == Mesh(2, map[PARTIAL := 1, DUPLICATE := 1, 1 := 2], [1], false)
    ensures m.Valid()
  {
    assert m.Radices() == [2];
    assert [2][..0] == [] && Prod([]) == 1;
    assert Prod([2]) == 2;
  }

  /**
   Digit merging with renumbering: every device keeps its coordinate on every other dimension, under
   the dimension's new number, and the destination gets left digit times right radix plus right digit.
   */
  lemma SplitMergeCoords(m: Mesh, s: int, dst: int, x: nat)
    requires m.Valid() && s >= 0 && s != dst && Mergeable(m.order, s, dst)
    ensures SplitMerged(m, s, dst).Valid() && SplitMerged(m, s, dst).deviceNum == m.deviceNum
    ensures SplitMerged(m, s, dst).order == LoweredOrder(MergedOrder(m.order, s, dst), s)
    ensures s in m.order || dst in m.order ==> (
              Lower(dst, s) in SplitMerged(m, s, dst).order
              && SplitMerged(m, s, dst).Coord(Lower(dst, s), x) == MergedCoord(m, s, dst, x))
    ensures forall d <- m.order :: d != s && d != dst ==> (
              Lower(d, s) in SplitMerged(m, s, dst).order
              && SplitMerged(m, s, dst).Coord(Lower(d, s), x) == m.Coord(d, x))
  {
    hide Prod, Pick, Mesh.Valid, Mesh.Coord, FusedStates, RemoveDim, LoweredOrder, MergedOrder, MergedCoord;
    hide Mergeable, Normalize, Merged;
    var m' := Merged(m, s, dst);
    MergedIsMesh(m, s, dst);
    MergedAway(m, s, dst);
    MergedOrderIsOrder(m, s, dst);
    WithoutIsMesh(m', MergedStates(m, s, dst), s);
    MergeCoords(m, s, dst, x);
    forall d | d in m'.order
      ensures Lower(d, s) in Without(m', s).order && Without(m', s).Coord(Lower(d, s), x) == m'.Coord(d, x)
    {
      WithoutCoord(m', s, d, x);
    }
  }

  lemma WithoutCoord(m: Mesh, s: int, d: int, x: nat)
    requires m.Valid() && Without(m, s).Valid() && Without(m, s).Radices() == m.Radices() && d in m.order
    ensures Lower(d, s) in Without(m, s).order && Without(m, s).Coord(Lower(d, s), x) == m.Coord(d, x)
  {
    hide Prod, Pick, Digits, Mesh.Valid, Mesh.Coord, RemoveDim, Normalize, LoweredOrder;
    var i := IndexOf(m.order, d);
    CoordAt(m, i, x);
    CoordAt(Without(m, s), i, x);
  }
}
