/**
 The `DistributedStates` object: its setters, and the loops that decompose device
 indices, form communication groups and merge dimensions.

 Every loop works on the fields of the object and on local counters; its contract gives the
 function of the mesh it computes, and the theorems about meshes say what that function means.
 */
module DistributedStatesObjects {
  import opened Collections
  import opened MixedRadix
  import opened DeviceMesh
  import opened MeshBuilding

  /** The elements of a device list at the given indices. */
  function AtAll<D>(group: seq<D>, idx: seq<nat>): (r: seq<D>)
    requires forall i | 0 <= i < |idx| :: idx[i] < |group|
    ensures |r| == |idx|
    ensures forall i | 0 <= i < |idx| :: r[i] == group[idx[i]]
  {
    if idx == [] then [] else AtAll(group, idx[..|idx| - 1]) + [group[idx[|idx| - 1]]]
  }

  lemma AtAllNil<D>(group: seq<D>, idx: seq<nat>)
    requires idx == []
    ensures AtAll(group, idx) == []
  {
  }

  lemma AtAllNext<D>(group: seq<D>, idx: seq<nat>, k: nat)
    requires (forall i | 0 <= i < |idx| :: idx[i] < |group|) && k < |idx|
    ensures AtAll(group, idx[..k + 1]) == AtAll(group, idx[..k]) + [group[idx[k]]]
  {
    assert idx[..k + 1][..k] == idx[..k];
  }

  lemma KeptAll(states: map<int, int>, res: map<int, int>)
    requires forall k :: k in res <==> k in states && states[k] > 1
    requires forall k <- res :: res[k] == states[k]
    ensures res == Kept(states)
  {
    forall k ensures k in res.Keys <==> k in Kept(states).Keys { }
    assert res.Keys == Kept(states).Keys;
    forall k | k in res ensures res[k] == Kept(states)[k] { }
  }

  lemma KeptOfNormalized(states: map<int, int>)
    ensures Kept(Normalize(states)) == Kept(states)
  {
  }

  lemma SplitsOfNormalized(states: map<int, int>)
    ensures forall d :: d in Normalize(states) && Normalize(states)[d] > 1 <==> d in states && states[d] > 1
  {
  }

  lemma SamePicks(given: seq<int>, stored: seq<int>, one: map<int, int>, two: map<int, int>)
    requires PickedFrom(given, stored, one) && forall d :: d in one && one[d] > 1 <==> d in two && two[d] > 1
    ensures PickedFrom(given, stored, two)
  {
    var ps: seq<nat> :| PickedAt(given, stored, one, ps);
    forall p: nat | p < |given| ensures p in ps <==> given[p] in two && two[given[p]] > 1 {
      var d := given[p];
      assert d in one && one[d] > 1 <==> d in two && two[d] > 1;
    }
    assert PickedAt(given, stored, two, ps);
  }

  class DistributedStates {
    var deviceNum: int
    var states: map<int, int>
    var order: seq<int>
    var zero: bool

    function Value(): Mesh
      reads this
    {
      Mesh(deviceNum, states, order, zero)
    }

    /** The class invariant: nothing has been set yet, or the mesh is proper. */
    ghost predicate Valid()
      reads this
    {
      deviceNum == -1 || Value().Valid()
    }

    constructor ()
      ensures deviceNum == -1 && states == map[] && order == [] && !zero
      ensures Valid()
    {
      deviceNum, states, order, zero := -1, map[], [], false;
    }

    /** Keeps the entries that split something; refuses states that do not use every device. */
    method SetStates(newStates: map<int, int>) returns (ok: bool)
      modifies this`states
      ensures ok <==> deviceNum != -1 && SizeProduct(Kept(newStates)) == deviceNum
      ensures states == if ok then Normalize(newStates) else old(states)
      ensures ok ==> forall k :: k in states <==> k == -2 || k == -1 || (k in newStates && newStates[k] > 1)
      ensures ok ==> forall k <- states :: states[k] == if k in newStates && newStates[k] > 1 then newStates[k] else 1
    {
      if deviceNum == -1 {
        return false;
      }
      var num := 1;
      var res: map<int, int> := map[];
      var todo := newStates.Keys;
      while todo != {}
        invariant todo <= newStates.Keys && states == old(states)
        invariant forall k :: k in res <==> k in newStates && k !in todo && newStates[k] > 1
        invariant forall k <- res :: res[k] == newStates[k]
        invariant num == SizeProduct(res)
        decreases todo
      {
        assert (forall j :: j !in todo) ==> todo == {};
        var k :| k in todo;
        if newStates[k] > 1 {
          assert res[k := newStates[k]] - {k} == res;
          SizeProductRemove(res[k := newStates[k]], k);
          MulComm(newStates[k], num);
          res := res[k := newStates[k]];
          num := num * newStates[k];
        }
        todo := todo - {k};
      }
      assert forall k :: k in res <==> k in newStates && newStates[k] > 1;
      KeptAll(newStates, res);
      if PARTIAL !in res {
        res := res[PARTIAL := 1];
      }
      if DUPLICATE !in res {
        res := res[DUPLICATE := 1];
      }
      assert res == Normalize(newStates);
      if num != deviceNum {
        return false;
      }
      states := res;
      return true;
    }

    /** An empty order means ascending dimensions; otherwise every split dimension must be named. */
    method SetOrder(newOrder: seq<int>) returns (ok: bool)
      modifies this`order
      ensures ok <==> states != map[] && (newOrder == [] || forall k <- Kept(states) :: k in newOrder)
      ensures order == if ok then BuiltOrder(states, newOrder) else old(order)
      ensures ok && newOrder == [] ==>
                Increasing(order) && forall d :: d in order <==> d in states && states[d] > 1
      ensures ok && newOrder != [] ==> PickedFrom(newOrder, order, states)
    {
      if states == map[] {
        return false;
      }
      if newOrder == [] {
        order := Sorted(Kept(states).Keys);
        return true;
      }
      if exists k :: k in states && states[k] > 1 && k !in newOrder {
        return false;
      }
      var res := [];
      for i := 0 to |newOrder|
        invariant res == FilterOrder(newOrder[..i], Kept(states))
      {
        assert newOrder[..i + 1][..i] == newOrder[..i];
        if newOrder[i] in states && states[newOrder[i]] > 1 {
          res := res + [newOrder[i]];
        }
      }
      assert newOrder[..|newOrder|] == newOrder;
      order := res;
      ghost var ps := FilterPicks(newOrder, states);
      assert PickedAt(newOrder, order, states, ps);
      return true;
    }

    /** What the constructors do; on failure they raise an error instead of producing an object. */
    method Construct(n: int, newStates: map<int, int>, newOrder: seq<int>, newZero: bool) returns (ok: bool)
      modifies this
      ensures ok <==> n != -1 && Buildable(n, newStates, newOrder)
      ensures ok ==> Value() == Build(n, newStates, newOrder, newZero)
      ensures ok ==> (Value().Valid() <==> NoDup(order))
      ensures ok && newOrder == [] ==>
                Increasing(order) && forall d :: d in order <==> d in newStates && newStates[d] > 1
      ensures ok && newOrder != [] ==> PickedFrom(newOrder, order, newStates)
    {
      deviceNum := n;
      zero := newZero;
      ok := SetStates(newStates);
      if ok {
        KeptOfNormalized(newStates);
        assert PARTIAL in states;
        ok := SetOrder(newOrder);
        if ok {
          BuildValid(n, newStates, newOrder, newZero);
          SplitsOfNormalized(newStates);
          if newOrder != [] { SamePicks(newOrder, order, states, newStates); }
        }
      }
    }

    /**
     Copies another object's layout through the setters; refused when this one is already bound to
     another size, or when the other's states and order do not fit together.
     */
    method SetDistributedStates(src: DistributedStates) returns (ok: bool)
      modifies this
      ensures ok <==> old(deviceNum == -1 || deviceNum == src.deviceNum) && old(src.deviceNum) != -1
                      && Buildable(old(src.deviceNum), old(src.states), old(src.order))
      ensures ok ==> Value() == Build(old(src.deviceNum), old(src.states), old(src.order), old(src.zero))
      ensures old(src.Value()).Valid() && ok ==> Value() == old(src.Value())
      ensures !old(deviceNum == -1 || deviceNum == src.deviceNum) ==> Value() == old(Value())
      ensures old(src.Value()).Valid() && old(deviceNum == -1 || deviceNum == src.deviceNum) ==> ok
    {
      if deviceNum != -1 && deviceNum != src.deviceNum {
        return false;
      }
      var n, st, o := src.deviceNum, src.states, src.order;
      CopiedFields(src.Value());
      hide Mesh.Valid, Normalize, Kept, SizeProduct, BuiltOrder, Buildable, Build;
      if deviceNum == -1 {
        deviceNum := n;
      }
      zero := src.zero;
      ok := SetStates(st);
      if ok {
        ok := SetOrder(o);
      }
      FieldsFit(n, st, o, zero);
    }

    /** The device stride of every dimension of the order. */
    method GetLoopSizes() returns (sizes: seq<nat>)
      requires Value().Valid()
      ensures sizes == Weights(Value().Radices())
    {
      ghost var m := Value();
      ghost var rs := m.Radices();
      var o, st := order, states;
      assert m.order == o && m.states == st;
      sizes := [1];
      var i := |o|;
      NoSizes(rs);
      hide *;
      while i > 0
        invariant 0 <= i <= |o| && SizesFrom(rs, i, sizes)
      {
        i := i - 1;
        OrderKeyed(m, i);
        AddSize(rs, i, sizes);
        sizes := [sizes[0] * st[o[i]]] + sizes;
      }
      AllSizes(rs, sizes);
      sizes := sizes[1..];
    }

    method MapDeviceToStateIndex(device: nat) returns (index: map<int, nat>)
      requires Value().Valid()
      ensures forall d :: d in index <==> d in order
      ensures forall d <- order :: index[d] == Value().Coord(d, device)
    {
      hide Prod, Pick, Mesh.Coord, Mesh.Radices, Unpeeled;
      ghost var m := Value();
      index := map[];
      var x: nat, i := device, |order|;
      NothingPeeled(m, device);
      while i > 0
        invariant 0 <= i <= |order| && Unpeeled(m, device, i, x)
        invariant forall d :: d in index <==> d in order[i..]
        invariant forall d <- order[i..] :: d in index && index[d] == m.Coord(d, device)
      {
        i := i - 1;
        var d := order[i];
        OrderKeyed(m, i);
        PeelDigit(m, device, i, x, d, states[d], x / states[d], x % states[d]);
        assert order[i..] == [d] + order[i + 1..];
        index := index[d := x % states[d]];
        x := x / states[d];
      }
      assert order[0..] == order;
    }

    /** The number of a device's split coordinates, counted with the highest dimension fastest. */
    method GetDupGroupIndex(device: nat) returns (group: nat)
      requires Value().Valid()
      ensures group == DupGroup(Value(), device)
    {
      hide Mesh.Valid, Mesh.Coord, DupGroup, Sorted;
      var index := MapDeviceToStateIndex(device);
      group := CountSplitDims(Value(), device, states, Sorted(set d | d in order), index);
    }

    /** The number of consecutive devices that share every coordinate up to place `p` of the order. */
    method Interval(p: nat) returns (interval: nat)
      requires Value().Valid() && p < |order|
      ensures interval == Prod(Value().Radices()[p + 1..])
    {
      ghost var m := Value();
      ghost var rs := m.Radices();
      var o, st := order, states;
      assert m.order == o && m.states == st;
      interval := 1;
      var i := |o|;
      ProdNil(rs[i..]);
      hide Mesh.Valid, Mesh.Radices, Prod;
      while i > p + 1
        invariant p + 1 <= i <= |o|
        invariant interval == Prod(rs[i..])
      {
        i := i - 1;
        ProdCons(rs, i);
        OrderKeyed(m, i);
        interval := interval * st[o[i]];
      }
    }

    /**
     The devices that communicate along `dim` with the given one: those that differ from it
     in that coordinate only. `dim` must be in the order.
     */
    method GetDevicesByDim<D>(dim: int, local: nat, group: seq<D>) returns (comm: seq<D>)
      requires Value().Valid() && dim in order && local < deviceNum <= |group|
      ensures (forall j | 0 <= j < |Siblings(Value(), dim, local)| :: Siblings(Value(), dim, local)[j] < |group|)
      ensures comm == AtAll(group, Siblings(Value(), dim, local))
    {
      hide Prod, Stride, Strided, AtAll, IndexOf, Times, FirstSibling;
      ghost var m := Value();
      var p := IndexOf(order, dim);
      OrderKeyed(m, p);
      var interval := Interval(p);
      var macro := Times(interval, states[dim]);
      SiblingsStrided(m, dim, local, interval, macro);
      ghost var g := Siblings(m, dim, local);
      assert forall j | 0 <= j < |g| :: g[j] < |group|;
      hide Mesh.Valid, Siblings;
      var start := FirstSibling(local, macro, interval);
      comm := Collect(group, start, interval, macro, g);
    }
  }

  /** The loop of `GetDevicesByDim`: every `interval`-th device of a stretch of `macro`. */
  method Collect<D>(group: seq<D>, start: nat, interval: nat, macro: nat, ghost g: seq<nat>) returns (comm: seq<D>)
    requires interval >= 1 && macro == Times(interval, |g|) && Strided(g, start, interval)
    requires forall j | 0 <= j < |g| :: g[j] < |group|
    ensures comm == AtAll(group, g)
  {
    hide Stride, Strided, AtAll, Times;
    comm := [];
    var i := start;
    StrideAt(g, start, interval, 0);
    AtAllNil(group, g[..0]);
    while i < start + macro
      invariant |comm| <= |g| && i == Stride(start, interval, |comm|)
      invariant comm == AtAll(group, g[..|comm|])
      decreases start + macro - i
    {
      StrideBound(start, interval, |comm|, |g|);
      StrideAt(g, start, interval, |comm|);
      AtAllNext(group, g, |comm|);
      comm := comm + [group[i]];
      i := i + interval;
    }
    StrideBound(start, interval, |comm|, |g|);
    assert g[..|g|] == g;
  }

  /** The smallest member of the group of device `x`. */
  function FirstSibling(x: nat, macro: nat, interval: nat): int
    requires macro >= 1 && interval >= 1
  {
    x - x % macro + x % interval
  }

  /** What the two setters check together is that the mesh can be built. */
  lemma FieldsFit(n: int, states: map<int, int>, order: seq<int>, zero: bool)
    ensures Normalize(states) != map[] && BuiltOrder(Normalize(states), order) == BuiltOrder(states, order)
    ensures SizeProduct(Kept(states)) == n && (order == [] || forall k <- Kept(Normalize(states)) :: k in order)
       <==> Buildable(n, states, order)
    ensures Build(n, states, order, zero) == Mesh(n, Normalize(states), BuiltOrder(states, order), zero)
  {
    KeptOfNormalized(states);
    assert PARTIAL in Normalize(states);
  }

  lemma CopiedFields(m: Mesh)
    ensures m.Valid() ==> m.deviceNum != -1 && Buildable(m.deviceNum, m.states, m.order)
    ensures m.Valid() ==> Build(m.deviceNum, m.states, m.order, m.zero) == m
  {
    hide SizeProduct, Normalize, BuiltOrder;
    if m.Valid() {
      RebuiltFields(m);
      RebuildIsIdentity(m);
    }
  }

  lemma RebuiltFields(m: Mesh)
    requires m.Valid()
    ensures m.deviceNum != -1 && m.states != map[] && SizeProduct(Kept(m.states)) == m.deviceNum
    ensures Normalize(m.states) == m.states && BuiltOrder(m.states, m.order) == m.order
    ensures m.order == [] || forall k <- Kept(m.states) :: k in m.order
  {
    RebuildIsIdentity(m);
    ProdPos(m.Radices());
    assert PARTIAL in m.states;
  }

  // ---------- peeling digits ----------

  /** The digits below `i` are still to be read off `x`. */
  ghost predicate Unpeeled(m: Mesh, device: nat, i: nat, x: nat)
    requires m.Valid() && i <= |m.order|
  {
    hide Digits, Prod;
    Digits(m.Radices(), device)[..i] == Digits(m.Radices()[..i], x)
  }

  lemma NothingPeeled(m: Mesh, device: nat)
    requires m.Valid()
    ensures Unpeeled(m, device, |m.order|, device)
  {
    hide Digits, Prod, Pick;
    assert m.Radices()[..|m.order|] == m.Radices();
  }

  lemma PeelDigit(m: Mesh, device: nat, i: nat, x: nat, d: int, r: nat, q: nat, e: nat)
    requires r >= 1 && q == x / r && e == x % r
    requires m.Valid() && i < |m.order| && Unpeeled(m, device, i + 1, x)
    requires d in m.states && d == m.order[i] && r == m.states[d]
    ensures m.Coord(d, device) == e
    ensures Unpeeled(m, device, i, q)
  {
    hide Prod, Pick, Digits;
    var rs := m.Radices();
    CoordAt(m, i, device);
    assert rs[i] == r && rs[..i + 1][i] == r;
    hide Mesh.Valid, Mesh.Radices, Mesh.Coord;
    LastDigit(rs[..i + 1], x);
    assert rs[..i + 1][..i] == rs[..i];
    PrefixDigits(Digits(rs, device), i);
  }

  lemma PrefixDigits(ds: seq<nat>, i: nat)
    requires i < |ds|
    ensures ds[..i + 1][..i] == ds[..i] && ds[..i + 1][i] == ds[i]
  {
  }

  lemma LastDigit(rs: seq<nat>, x: nat)
    requires AllPos(rs) && |rs| > 0
    ensures Digits(rs, x)[..|rs| - 1] == Digits(rs[..|rs| - 1], x / rs[|rs| - 1])
    ensures Digits(rs, x)[|rs| - 1] == x % rs[|rs| - 1]
  {
  }

  // ---------- loop sizes ----------

  ghost predicate SizesFrom(rs: seq<nat>, i: nat, sizes: seq<nat>)
    ensures SizesFrom(rs, i, sizes) ==> |sizes| >= 1
  {
    i <= |rs| && |sizes| == |rs| - i + 1 && forall j | 0 <= j < |sizes| :: sizes[j] == Prod(rs[i + j..])
  }

  lemma NoSizes(rs: seq<nat>)
    ensures SizesFrom(rs, |rs|, [1])
  {
    assert rs[|rs|..] == [];
  }

  lemma AddSize(rs: seq<nat>, i: nat, sizes: seq<nat>)
    requires i < |rs| && SizesFrom(rs, i + 1, sizes)
    ensures sizes[0] * rs[i] >= 0 && SizesFrom(rs, i, [sizes[0] * rs[i]] + sizes)
  {
    hide Prod;
    ProdCons(rs, i);
    var longer := [sizes[0] * rs[i]] + sizes;
    forall j | 0 < j < |longer| ensures longer[j] == Prod(rs[i + j..]) {
      assert sizes[j - 1] == Prod(rs[i + 1 + (j - 1)..]);
    }
  }

  lemma AllSizes(rs: seq<nat>, sizes: seq<nat>)
    requires SizesFrom(rs, 0, sizes)
    ensures sizes[1..] == Weights(rs)
  {
    hide Prod;
  }

  // ---------- strides of a communication group ----------

  ghost function Stride(start: nat, w: nat, j: nat): nat {
    start + j * w
  }

  ghost predicate Strided(g: seq<nat>, start: nat, w: nat) {
    forall j: nat | j < |g| :: g[j] == Stride(start, w, j)
  }

  lemma StrideAt(g: seq<nat>, start: nat, w: nat, j: nat)
    requires Strided(g, start, w)
    ensures Stride(start, w, 0) == start
    ensures j < |g| ==> g[j] == Stride(start, w, j)
    ensures Stride(start, w, j + 1) == Stride(start, w, j) + w
  {
    MulDist(j, 1, w);
  }

  lemma StrideBound(start: nat, w: nat, j: nat, n: nat)
    requires w >= 1
    ensures Stride(start, w, j) < start + Times(w, n) <==> j < n
  {
    MulComm(w, n);
    if j < n { MulMono(j + 1, n, w); MulDist(j, 1, w); } else { MulMono(n, j, w); }
  }

  lemma ProdCons(rs: seq<nat>, i: nat)
    requires i < |rs|
    ensures Prod(rs[i..]) == Prod(rs[i + 1..]) * rs[i]
  {
    hide Prod;
    assert rs[i..] == [rs[i]] + rs[i + 1..];
    RankCons(rs[i], rs[i + 1..], 0, rs[i + 1..]);
    MulComm(rs[i], Prod(rs[i + 1..]));
  }

  lemma OrderKeyed(m: Mesh, i: nat)
    requires m.Valid() && i < |m.order|
    ensures m.order[i] in m.states && m.states[m.order[i]] >= 1 && m.states[m.order[i]] == m.Radices()[i]
  {
    hide Prod, Pick;
  }

  /** Member `j` of a group lies `j` strides after the first one. */
  lemma SiblingsStrided(m: Mesh, dim: int, x: nat, w: nat, macro: nat)
    requires m.Valid() && dim in m.order && x < m.deviceNum
    requires dim in m.states && m.states[dim] == m.Radices()[IndexOf(m.order, dim)]
    requires w == Prod(m.Radices()[IndexOf(m.order, dim) + 1..]) && macro == Times(w, m.states[dim])
    ensures w >= 1 && macro >= 1 && FirstSibling(x, macro, w) >= 0
    ensures Strided(Siblings(m, dim, x), FirstSibling(x, macro, w), w)
    ensures forall j | 0 <= j < |Siblings(m, dim, x)| :: Siblings(m, dim, x)[j] < m.deviceNum
  {
    hide Pick, Digits, Rank, Prod, Siblings, Stride, FirstSibling, Times;
    SiblingAt(m, dim, x, w, macro, 0);
    forall j: nat | j < m.states[dim] ensures Siblings(m, dim, x)[j] == Stride(FirstSibling(x, macro, w), w, j) {
      SiblingAt(m, dim, x, w, macro, j);
    }
    forall j: nat | j < m.states[dim] ensures Siblings(m, dim, x)[j] < m.deviceNum {
      SiblingCoords(m, dim, x, j);
    }
  }

  lemma SiblingAt(m: Mesh, dim: int, x: nat, w: nat, macro: nat, j: nat)
    requires m.Valid() && dim in m.order && x < m.deviceNum && j < m.states[dim]
    requires w == Prod(m.Radices()[IndexOf(m.order, dim) + 1..]) && macro == Times(w, m.states[dim])
    ensures w >= 1 && macro >= 1 && FirstSibling(x, macro, w) >= 0
    ensures Siblings(m, dim, x)[j] == Stride(FirstSibling(x, macro, w), w, j)
  {
    var rs, p := m.Radices(), IndexOf(m.order, dim);
    hide *;
    SiblingRank(m, dim, x, j, rs, p, m.states[dim], w);
    StridedIs(x, m.states[dim], w, j, macro);
  }

  /** The device with digit `j`, of radix `r` and weight `w`, that agrees with `x` elsewhere. */
  ghost function InBlock(x: nat, r: nat, w: nat, j: nat): int
    requires Times(r, w) >= 1 && w >= 1
  {
    ((x / (r * w)) * r + j) * w + x % w
  }

  lemma SiblingRank(m: Mesh, dim: int, x: nat, j: nat, rs: seq<nat>, p: nat, r: nat, w: nat)
    requires m.Valid() && dim in m.order && x < m.deviceNum && j < m.states[dim] && r == m.states[dim]
    requires rs == m.Radices() && p == IndexOf(m.order, dim) && w == Prod(rs[p + 1..])
    ensures w >= 1 && Times(r, w) >= 1 && Siblings(m, dim, x)[j] == InBlock(x, r, w, j)
  {
    hide Mesh.Valid, Siblings, Prod, Pick, Rank, Digits, IndexOf;
    SiblingIs(m, dim, x, j, rs, p);
    RankReplace(rs, x, p, r, j);
    SameReplaced(rs, p, r);
  }

  lemma SameReplaced(rs: seq<nat>, p: nat, r: nat)
    requires p < |rs| && rs[p] == r
    ensures rs[p := r] == rs
  {
  }

  lemma SiblingIs(m: Mesh, dim: int, x: nat, j: nat, rs: seq<nat>, p: nat)
    requires m.Valid() && dim in m.order && x < m.deviceNum && j < m.states[dim]
    requires rs == m.Radices() && p == IndexOf(m.order, dim)
    ensures p < |rs| && rs[p] == m.states[dim] && AllPos(rs) && x < Prod(rs)
    ensures Siblings(m, dim, x)[j] == Rank(rs, Digits(rs, x)[p := j])
  {
    hide Pick, Digits, Rank, Prod;
  }

  /** The first member lies at the start of the device's macro block, at its place within the stride. */
  lemma StridedIs(x: nat, r: nat, w: nat, j: nat, macro: nat)
    requires Times(r, w) >= 1 && w >= 1 && macro == Times(w, r)
    ensures macro >= 1 && FirstSibling(x, macro, w) >= 0
    ensures Stride(FirstSibling(x, macro, w), w, j) == InBlock(x, r, w, j)
  {
    MulComm(r, w);
    StartOf(x, r, w, j);
  }

  lemma StartOf(x: nat, r: nat, w: nat, j: nat)
    requires r * w >= 1
    ensures 0 <= x % (r * w) <= x
    ensures ((x / (r * w)) * r + j) * w == x - x % (r * w) + j * w
  {
    var q := x / (r * w);
    MulDist(q * r, j, w);
    MulAssoc(q, r, w);
    MulComm(q, r * w);
    assert x == (r * w) * q + x % (r * w);
  }

  // ---------- counting the split coordinates ----------

  /** The loop of `GetDupGroupIndex` over the sorted order, stopping at the first special dimension. */
  method CountSplitDims(ghost m: Mesh, ghost device: nat, states: map<int, int>, dims: seq<int>, index: map<int, nat>)
    returns (group: nat)
    requires m.Valid() && states == m.states && dims == Sorted(set d | d in m.order)
    requires forall d <- m.order :: d in index && index[d] == m.Coord(d, device)
    ensures group == DupGroup(m, device)
  {
    hide *;
    var interval: nat, i := 1, |dims|;
    group := 0;
    CountStart(m, dims, device);
    while i > 0 && dims[i - 1] >= 0
      invariant 0 <= i <= |dims| && Counting(m, dims, i, device, interval, group)
      decreases i
    {
      i := i - 1;
      var dim := dims[i];
      CountMore(m, dims, i, device, interval, group);
      group := group + Times(index[dim], interval);
      interval := Times(interval, states[dim]);
    }
    CountEnd(m, dims, i, device, interval, group);
  }

  /** The loop has counted the dimensions from place `i` on, all of them split. */
  ghost predicate Counting(m: Mesh, dims: seq<int>, i: nat, device: nat, interval: nat, group: nat)
    requires m.Valid() && i <= |dims|
  {
    && (forall j | 0 <= j < |dims| :: dims[j] in m.order && dims[j] in m.states && m.states[dims[j]] >= 0)
    && (forall j | i <= j < |dims| :: dims[j] >= 0)
    && CountedDims(m, dims[i..], device, interval, group)
  }

  lemma CountStart(m: Mesh, dims: seq<int>, device: nat)
    requires m.Valid() && dims == Sorted(set d | d in m.order)
    ensures Counting(m, dims, |dims|, device, 1, 0)
  {
    hide Mesh.Valid, CountedDims;
    SortedOrder(m, dims);
    hide Sorted;
    AllInOrder(m, dims);
    NothingCounted(m, dims[|dims|..], device);
  }

  lemma CountMore(m: Mesh, dims: seq<int>, i: nat, device: nat, interval: nat, group: nat)
    requires m.Valid() && i < |dims| && dims[i] >= 0 && Counting(m, dims, i + 1, device, interval, group)
    ensures dims[i] in m.order && dims[i] in m.states && m.states[dims[i]] >= 0
    ensures Counting(
              m, dims, i, device, Times(interval, m.states[dims[i]]), group + Times(m.Coord(dims[i], device), interval))
  {
    hide Mesh.Valid, CountedDims, Times;
    CountNext(m, dims, i, device, interval, group);
  }

  lemma CountEnd(m: Mesh, dims: seq<int>, i: nat, device: nat, interval: nat, group: nat)
    requires m.Valid() && i <= |dims| && Counting(m, dims, i, device, interval, group)
    requires dims == Sorted(set d | d in m.order) && (i == 0 || dims[i - 1] < 0)
    ensures group == DupGroup(m, device)
  {
    hide Mesh.Valid, CountedDims, DupGroup, SplitDims;
    SplitDimsAreTail(m, dims, i);
    hide Sorted;
    CountedAll(m, dims[i..], device, interval, group);
  }

  lemma SortedOrder(m: Mesh, dims: seq<int>)
    requires dims == Sorted(set d | d in m.order)
    ensures forall d :: d in dims <==> d in m.order
  {
    hide Sorted;
  }

  /** The loop state after the dimensions `rest` have been counted. */
  ghost predicate CountedDims(m: Mesh, rest: seq<int>, device: nat, interval: nat, group: nat)
    requires m.Valid()
  {
    && (forall i | 0 <= i < |rest| :: rest[i] in m.order && rest[i] in m.states && m.states[rest[i]] >= 0)
    && interval == Prod(Pick(m.states, rest))
    && group == Rank(Pick(m.states, rest), CoordsAlong(m, rest, device))
  }

  lemma NothingCounted(m: Mesh, rest: seq<int>, device: nat)
    requires m.Valid() && |rest| == 0
    ensures CountedDims(m, rest, device, 1, 0)
  {
  }

  lemma CountDim(m: Mesh, d: int, rest: seq<int>, device: nat, interval: nat, group: nat)
    requires m.Valid() && d in m.order && d in m.states && m.states[d] >= 0
    requires CountedDims(m, rest, device, interval, group)
    ensures CountedDims(
              m, [d] + rest, device, Times(interval, m.states[d]), group + Times(m.Coord(d, device), interval))
  {
    hide Prod, Rank, Digits, Mesh.Coord, Mesh.Valid;
    var dims := [d] + rest;
    assert dims[1..] == rest;
    RankCons(m.states[d], Pick(m.states, rest), m.Coord(d, device), CoordsAlong(m, rest, device));
    MulComm(interval, m.states[d]);
  }

  lemma CountNext(m: Mesh, dims: seq<int>, i: nat, device: nat, interval: nat, group: nat)
    requires m.Valid() && i < |dims| && dims[i] in m.order && dims[i] in m.states && m.states[dims[i]] >= 0
    requires CountedDims(m, dims[i + 1..], device, interval, group)
    ensures CountedDims(m, dims[i..], device, Times(interval, m.states[dims[i]]),
                        group + Times(m.Coord(dims[i], device), interval))
  {
    hide CountedDims, Mesh.Valid, Times;
    CountDim(m, dims[i], dims[i + 1..], device, interval, group);
    assert dims[i..] == [dims[i]] + dims[i + 1..];
  }

  /** A product kept out of sight of the solver. */
  function Times(a: nat, b: nat): nat {
    a * b
  }

  lemma CountedAll(m: Mesh, dims: seq<int>, device: nat, interval: nat, group: nat)
    requires m.Valid() && dims == SplitDims(m) && CountedDims(m, dims, device, interval, group)
    ensures group == DupGroup(m, device)
  {
    hide Prod, Rank, Digits, Pick, CoordsAlong;
  }

  lemma AllInOrder(m: Mesh, dims: seq<int>)
    requires m.Valid() && forall d :: d in dims <==> d in m.order
    ensures forall i | 0 <= i < |dims| :: dims[i] in m.order && dims[i] in m.states && m.states[dims[i]] >= 0
  {
    hide Prod, Pick;
    forall i | 0 <= i < |dims| ensures dims[i] in m.order && dims[i] in m.states {
      assert dims[i] in dims;
      var p := IndexOf(m.order, dims[i]);
      assert m.order[p] in m.states;
    }
  }

  /** The loop stops where the split dimensions begin. */
  lemma SplitDimsAreTail(m: Mesh, dims: seq<int>, i: nat)
    requires dims == Sorted(set d | d in m.order) && i <= |dims|
    requires forall j | i <= j < |dims| :: dims[j] >= 0
    requires i == 0 || dims[i - 1] < 0
    ensures dims[i..] == SplitDims(m)
  {
    hide Sorted;
    forall j | 0 <= j < i ensures dims[j] < 0 {
      assert j < i - 1 ==> dims[j] < dims[i - 1];
    }
    forall j | i <= j < |dims| ensures dims[j] in m.order {
      assert dims[j] in dims;
    }
    SortedSuffix((set d | d in m.order), (set d | d in m.order && d >= 0), i);
  }
}
