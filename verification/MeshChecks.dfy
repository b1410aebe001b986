/**
 The communication patterns the graph recognises by comparing two meshes.
 */
module MeshChecks {
  import opened Collections
  import opened MixedRadix
  import opened DeviceMesh
  import opened MeshBuilding
  import opened DigitMerging
  import opened SplitMerging

  const NO_SPLIT_DIM: int := -3

  /** Whether merging `src` into `dst` turns `m` into `m2`; `None` where the source raises an error. */
  function CheckCombine(m: Mesh, m2: Mesh, src: seq<int>, dst: int): Option<bool> {
    var st, o := CombinedStates(src, dst, m.states), CombinedOrder(src, dst, m.order);
    if st.None? || o.None? then None else Some(st.value == m2.states && o.value == m2.order)
  }

  function CheckAllReduce(m: Mesh, m2: Mesh): Option<bool> {
    if m.Dim(PARTIAL) > 1 then CheckCombine(m, m2, [PARTIAL], DUPLICATE) else Some(false)
  }

  /** The dimensions that `m` splits more finely than `merged` does. */
  function FinerDims(m: Mesh, merged: Mesh): set<int> {
    set d | d in m.states && d >= 0 && m.states[d] > 1 && (d !in merged.states || merged.states[d] < m.states[d])
  }

  /** The one dimension that `m` splits more finely than `merged`; an error when there are several. */
  function SplitDim(m: Mesh, merged: Mesh): Option<int> {
    var ds := Sorted(FinerDims(m, merged));
    if |ds| == 0 then Some(NO_SPLIT_DIM) else if |ds| == 1 then Some(ds[0]) else None
  }

  function CheckScatter(m: Mesh, m2: Mesh): Option<bool> {
    var k := SplitDim(m2, m);
    if k.None? then None
    else if m.Dim(DUPLICATE) > 1 then CheckCombine(m, m2, [DUPLICATE], k.value) else Some(false)
  }

  function CheckAllGather(m: Mesh, m2: Mesh): Option<bool> {
    var k := SplitDim(m, m2);
    if k.None? then None
    else if m.Dim(k.value) > 1 && m2.Dim(DUPLICATE) > 1 then CheckCombine(m2, m, [DUPLICATE], k.value)
    else Some(false)
  }

  function CheckReduceScatter(m: Mesh, m2: Mesh): Option<bool> {
    var k := SplitDim(m2, m);
    if k.None? then None
    else if m.Dim(PARTIAL) > 1 then CheckCombine(m, m2, [PARTIAL], k.value) else Some(false)
  }

  /** Same states and order, which is all the checks compare. */
  predicate SameLayout(m: Mesh, m2: Mesh) {
    m.states == m2.states && m.order == m2.order
  }

  /** The mesh that merging one dimension into another leaves. */
  function MergedMesh(m: Mesh, s: int, dst: int): Mesh
    requires Mergeable(m.order, s, dst)
  {
    if Special(s) then Merged(m, s, dst) else SplitMerged(m, s, dst)
  }

  /** A successful check of one source that splits something means exactly that the target is the merged mesh. */
  lemma CheckMeansMerged(m: Mesh, m2: Mesh, s: int, dst: int)
    requires m.Valid() && s >= PARTIAL && s != dst && m.Dim(s) > 1
    ensures CheckCombine(m, m2, [s], dst).Some? <==> Mergeable(m.order, s, dst)
    ensures CheckCombine(m, m2, [s], dst) == Some(true)
       <==> Mergeable(m.order, s, dst) && SameLayout(m2, MergedMesh(m, s, dst))
  {
    hide CombinedStates, CombinedOrder, Mergeable, MergedMesh, Mesh.Valid, MergedOrder, Renumbered;
    MergesIff(m, s, dst);
    if Mergeable(m.order, s, dst) {
      MergedFields(m, s, dst);
    }
  }

  lemma MergesIff(m: Mesh, s: int, dst: int)
    requires m.Valid() && s >= PARTIAL && s != dst
    ensures CombinedStates([s], dst, m.states).Some?
    ensures CombinedOrder([s], dst, m.order).Some? <==> Mergeable(m.order, s, dst)
  {
    hide CombinedStates, CombinedOrder, Mergeable, RemoveDim, FusedStates, Renumbered, MergedOrder, Prod, Pick;
    CombinedStatesOfOne(s, dst, m.states);
    CombinedOrderOfOne(s, dst, m.order);
  }

  /** Where the source splits something, the merged states and order are those of the mesh, size for size. */
  lemma MergedFields(m: Mesh, s: int, dst: int)
    requires m.Valid() && s >= PARTIAL && s != dst && m.Dim(s) > 1 && Mergeable(m.order, s, dst)
    ensures CombinedStates([s], dst, m.states) == Some(MergedMesh(m, s, dst).states)
    ensures CombinedOrder([s], dst, m.order) == Some(MergedMesh(m, s, dst).order)
  {
    if Special(s) {
      SpecialMergedFields(m, s, dst);
    } else {
      SplitMergedFields(m, s, dst);
    }
    hide CombinedStates, CombinedOrder, Mergeable, Mesh.Valid, Merged, SplitMerged;
  }

  lemma SpecialMergedFields(m: Mesh, s: int, dst: int)
    requires m.Valid() && Special(s) && s != dst && m.Dim(s) > 1 && Mergeable(m.order, s, dst)
    ensures CombinedStates([s], dst, m.states) == Some(Merged(m, s, dst).states)
    ensures CombinedOrder([s], dst, m.order) == Some(Merged(m, s, dst).order)
  {
    hide Prod, Pick, CombinedStates, CombinedOrder, MergedOrder, MergedRadices, Mergeable, BuiltOrder;
    hide Normalize, MergedStates;
    MergeKeepsMesh(m, s, dst);
    MergedStatesNormal(m, s, dst);
  }

  lemma SplitMergedFields(m: Mesh, s: int, dst: int)
    requires m.Valid() && s >= 0 && s != dst && m.Dim(s) > 1 && Mergeable(m.order, s, dst)
    ensures CombinedStates([s], dst, m.states) == Some(SplitMerged(m, s, dst).states)
    ensures CombinedOrder([s], dst, m.order) == Some(SplitMerged(m, s, dst).order)
  {
    hide Prod, Pick, CombinedStates, CombinedOrder, MergedOrder, Mergeable, RemoveDim, LoweredOrder, Normalize, Merged;
    hide FusedStates;
    assert s in m.order;
    SplitCombined(m, s, dst);
    MergedAway(m, s, dst);
    MergedIsMesh(m, s, dst);
    RemoveNormal(MergedStates(m, s, dst), s);
    SplitStatesNormal(m, s, dst);
  }

  lemma SplitStatesNormal(m: Mesh, s: int, dst: int)
    requires m.Valid() && s >= 0 && s != dst && m.Dim(s) > 1
    ensures Normalize(RemoveDim(MergedStates(m, s, dst), s)) == RemoveDim(MergedStates(m, s, dst), s)
  {
    hide Prod, Pick, RemoveDim, Normalize;
    var st := MergedStates(m, s, dst);
    assert m.Dim(dst) * m.Dim(s) > 1 by { MulMono(1, m.Dim(dst), m.Dim(s)); }
    assert st[dst] == m.Dim(dst) * m.Dim(s);
    var r := RemoveDim(st, s);
    forall x | x in r ensures r[x] >= 1 && (x != PARTIAL && x != DUPLICATE ==> r[x] > 1) {
      RemovedAt(st, s, x, if x >= s then x + 1 else x);
    }
    RemovedAt(st, s, PARTIAL, PARTIAL);
    RemovedAt(st, s, DUPLICATE, DUPLICATE);
    NormalizeFixed(r);
  }

  lemma MergedStatesNormal(m: Mesh, s: int, dst: int)
    requires m.Valid() && Special(s) && s != dst && m.states[s] > 1
    ensures Normalize(MergedStates(m, s, dst)) == MergedStates(m, s, dst)
    ensures MergedStates(m, s, dst)
         == m.states[s := 1][dst := (if dst in m.states then m.states[dst] else 1) * m.states[s]]
  {
    hide Prod, Pick;
    assert m.Dim(dst) * m.states[s] > 1 by { MulMono(1, m.Dim(dst), m.states[s]); }
    NormalizeFixed(MergedStates(m, s, dst));
  }

  /** The finer mesh names the dimension it was merged into. */
  lemma SplitDimOfMerged(m: Mesh, s: int, k: int)
    requires m.Valid() && Special(s) && k >= 0 && m.states[s] > 1 && Mergeable(m.order, s, k)
    ensures SplitDim(Merged(m, s, k), m) == Some(k)
    ensures Merged(m, s, k).Dim(k) > 1
    ensures SameLayout(Merged(m, s, k), Merged(m, s, k)) && CheckCombine(m, Merged(m, s, k), [s], k) == Some(true)
  {
    hide Prod, Pick, CheckCombine, MergedOrder, Mergeable, BuiltOrder, MergedRadices;
    MergeKeepsMesh(m, s, k);
    MergedStatesNormal(m, s, k);
    BuildFields(m.deviceNum, MergedStates(m, s, k), MergedOrder(m.order, s, k), m.zero);
    assert m.Dim(k) < m.Dim(k) * m.states[s] by {
      MulMono(2, m.states[s], m.Dim(k));
      MulComm(m.states[s], m.Dim(k));
    }
    FinerOfMerged(m, Merged(m, s, k), s, k, m.Dim(k) * m.states[s]);
    SortedSingle(k);
    CheckMeansMerged(m, Merged(m, s, k), s, k);
  }

  lemma FinerOfMerged(m: Mesh, m': Mesh, s: int, k: int, size: int)
    requires Special(s) && k >= 0 && m.Dim(k) >= 1 && m.Dim(k) < size
    requires m'.states == m.states[s := 1][k := size]
    ensures FinerDims(m', m) == {k}
  {
  }

  /** `m2` has the layout that merging `s` into some split dimension of `m` gives. */
  ghost predicate MergedSomewhere(m: Mesh, m2: Mesh, s: int) {
    exists k | k >= 0 :: MergedAt(m, m2, s, k)
  }

  predicate MergedAt(m: Mesh, m2: Mesh, s: int, k: int) {
    Mergeable(m.order, s, k) && SameLayout(m2, Merged(m, s, k))
  }

  /** An all-reduce is recognised exactly when the target is the mesh with the partial digit made a duplicate. */
  lemma AllReduceMeansMerged(m: Mesh, m2: Mesh)
    requires m.Valid()
    ensures CheckAllReduce(m, m2) == Some(true) <==> m.states[PARTIAL] > 1 && MergedAt(m, m2, PARTIAL, DUPLICATE)
  {
    hide CheckCombine, Merged, Mergeable, Prod, Pick;
    if m.states[PARTIAL] > 1 { CheckMeansMerged(m, m2, PARTIAL, DUPLICATE); }
  }

  /** A check against the dimension that got finer succeeds exactly when the digit was merged into some dimension. */
  lemma SplitCheckMeansMerged(m: Mesh, m2: Mesh, s: int)
    requires m.Valid() && Special(s) && m.states[s] > 1 && forall d <- m2.states :: d >= PARTIAL
    ensures MergedSomewhere(m, m2, s) <==>
            SplitDim(m2, m).Some? && CheckCombine(m, m2, [s], SplitDim(m2, m).value) == Some(true)
    ensures MergedSomewhere(m, m2, s) ==> SplitDim(m2, m).Some? && m2.Dim(SplitDim(m2, m).value) > 1
  {
    hide CheckCombine, Merged, Mergeable, SplitDim, Prod, Pick;
    if MergedSomewhere(m, m2, s) {
      var k :| k >= 0 && MergedAt(m, m2, s, k);
      SplitDimOfMerged(m, s, k);
      SameFiner(m2, Merged(m, s, k), m);
      CheckMeansMerged(m, m2, s, k);
    }
    if SplitDim(m2, m).Some? && CheckCombine(m, m2, [s], SplitDim(m2, m).value) == Some(true) {
      var k := SplitDim(m2, m).value;
      SplitDimBelow(m2, m);
      CheckMeansMerged(m, m2, s, k);
      DimOfMerged(m, s, k);
      assert k in m2.states && MergedAt(m, m2, s, k);
    }
  }

  lemma SameFiner(m: Mesh, m2: Mesh, merged: Mesh)
    requires m.states == m2.states
    ensures SplitDim(m, merged) == SplitDim(m2, merged)
  {
    assert FinerDims(m, merged) == FinerDims(m2, merged);
  }

  lemma SplitDimBelow(m: Mesh, merged: Mesh)
    ensures SplitDim(m, merged).Some? ==> SplitDim(m, merged).value == NO_SPLIT_DIM || SplitDim(m, merged).value >= 0
  {
    var ds := Sorted(FinerDims(m, merged));
    if |ds| == 1 {
      assert ds[0] in ds;
    }
  }

  /** The destination of a merge is a dimension of the merged mesh. */
  lemma DimOfMerged(m: Mesh, s: int, k: int)
    requires m.Valid() && Special(s) && s != k && m.states[s] > 1 && Mergeable(m.order, s, k)
    ensures k in Merged(m, s, k).states
  {
    hide Prod, Pick, MergedOrder, Mergeable, BuiltOrder, MergedRadices;
    MergedStatesNormal(m, s, k);
  }

  /**
   Scatter, reduce-scatter and all-gather are each recognised exactly when one mesh is the other with
   the digit merged.
   */
  lemma ChecksMeanMerged(m: Mesh, m2: Mesh)
    requires m.Valid() && m2.Valid() && (forall d <- m.states :: d >= PARTIAL) && forall d <- m2.states :: d >= PARTIAL
    ensures CheckScatter(m, m2) == Some(true) <==> m.states[DUPLICATE] > 1 && MergedSomewhere(m, m2, DUPLICATE)
    ensures CheckReduceScatter(m, m2) == Some(true) <==> m.states[PARTIAL] > 1 && MergedSomewhere(m, m2, PARTIAL)
    ensures CheckAllGather(m, m2) == Some(true) <==> m2.states[DUPLICATE] > 1 && MergedSomewhere(m2, m, DUPLICATE)
  {
    hide CheckCombine, SplitDim, MergedSomewhere, Prod, Pick;
    if m.states[DUPLICATE] > 1 { SplitCheckMeansMerged(m, m2, DUPLICATE); }
    if m.states[PARTIAL] > 1 { SplitCheckMeansMerged(m, m2, PARTIAL); }
    if m2.states[DUPLICATE] > 1 { SplitCheckMeansMerged(m2, m, DUPLICATE); }
  }

  lemma SortedSingle(k: int)
    ensures Sorted({k}) == [k]
  {
    assert {k} - {k} == {};
    assert Sorted({k} - {k}) == [];
  }
}
