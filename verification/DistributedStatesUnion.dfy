/**
 A union of layouts along a heterogeneous dimension: taking one member's local layout,
 moving the heterogeneous dimension, and `to_hetero`.

 The object holds one layout per member, each over all devices; a member's own part is its local
 layout, in which the heterogeneous dimension is divided by the number of members.
 */
module DistributedStatesUnions {
  import opened Collections
  import MixedRadix
  import opened DeviceMesh
  import opened MeshBuilding
  import opened SubMesh
  import opened HeteroDim
  import opened DistributedStatesObjects

  const NULL_HETERO_DIM: int := -3

  /** Hetero means more than one member; `None` where the two notions disagree and an error is raised. */
  function IsHetero(members: seq<Mesh>, h: int): Option<bool> {
    if (h != NULL_HETERO_DIM) != (|members| > 1) then None else Some(h != NULL_HETERO_DIM)
  }

  /** The local layout of member `i`, or `None` where an error is raised. */
  ghost function LocalOf(members: seq<Mesh>, h: int, i: nat): Option<Mesh> {
    if IsHetero(members, h).None? || i >= |members| then None
    else if !IsHetero(members, h).value then Some(members[0])
    else LocalPart(members[i], h, |members|)
  }

  /** Member `m` with the hetero dimension divided by the number of members. */
  ghost function LocalPart(m: Mesh, h: int, n: nat): Option<Mesh>
    requires n >= 1
  {
    if m.Dim(h) % n != 0 || h !in m.states then None
    else if !Buildable(m.deviceNum / n, LocalStates(m, h, n), LocalOrder(m, h, n)) then None
    else Some(LocalMesh(m, h, n))
  }

  /** For a proper mesh and a real cut the only error is a size that does not divide. */
  lemma LocalPartIff(m: Mesh, h: int, n: nat)
    requires m.Valid() && n > 1
    ensures LocalPart(m, h, n).Some? <==> m.Dim(h) % n == 0
    ensures m.Dim(h) % n == 0 ==>
              m.Dim(h) / n >= 1 && Cut(m, h, n, m.Dim(h) / n) && LocalPart(m, h, n) == Some(LocalMesh(m, h, n))
  {
    hide LocalMesh, Buildable, LocalStates, LocalOrder;
    if m.Dim(h) % n == 0 {
      DivisibleIsCut(m, h, n);
      LocalIsMesh(m, h, n, m.Dim(h) / n);
    }
  }

  lemma DivisibleIsCut(m: Mesh, h: int, n: nat)
    requires m.Valid() && n > 1 && m.Dim(h) % n == 0
    ensures m.Dim(h) / n >= 1 && Cut(m, h, n, m.Dim(h) / n)
  {
    hide Pick;
    assert m.Dim(h) >= 1;
    ExactQuotient(m.Dim(h), n);
  }

  lemma ExactQuotient(x: int, n: nat)
    requires n > 1 && x >= 1 && x % n == 0
    ensures x / n >= 1 && x == n * (x / n) && x > 1
  {
  }

  /** What one step of `change_hetero_dim` accepts. */
  ghost predicate Movable(m: Mesh, h: int, n: nat, h2: int)
    requires n >= 1
  {
    && |m.order| > 0 && m.order[0] == h
    && m.Dim(h) % n == 0 && h in m.states
    && RaisedOrder(LocalMesh(m, h, n), h2)[0] == h2
  }

  function Moved(m: Mesh, h: int, n: nat, h2: int): Mesh
    requires n >= 1 && h in m.states
  {
    Raised(m, LocalMesh(m, h, n), h2, n)
  }

  /** The members once the first `k` of them have been moved. */
  ghost predicate MovedUpTo(was: seq<Mesh>, now: seq<Mesh>, h: int, h2: int, k: nat) {
    && |now| == |was| && k <= |was|
    && (forall i | 0 <= i < k :: Movable(was[i], h, |was|, h2) && now[i] == Moved(was[i], h, |was|, h2))
    && (forall i | k <= i < |was| :: now[i] == was[i])
  }

  ghost predicate AllValid(members: seq<Mesh>) {
    forall i | 0 <= i < |members| :: members[i].Valid()
  }

  /** No member is refused. */
  ghost predicate AllMovable(was: seq<Mesh>, h: int, h2: int) {
    forall i | 0 <= i < |was| :: Movable(was[i], h, |was|, h2)
  }

  lemma NothingMoved(was: seq<Mesh>, h: int, h2: int)
    ensures MovedUpTo(was, was, h, h2, 0)
  {
  }

  lemma NotMovedAt(was: seq<Mesh>, now: seq<Mesh>, h: int, h2: int, i: nat)
    requires i < |was| && MovedUpTo(was, now, h, h2, i) && AllValid(now)
    ensures |now| == |was| && now[i] == was[i] && now[i] in now && now[i].Valid()
  {
    hide Mesh.Valid, Movable, Moved;
  }

  lemma MoveNext(was: seq<Mesh>, now: seq<Mesh>, h: int, h2: int, i: nat, m: Mesh)
    requires i < |was| && MovedUpTo(was, now, h, h2, i) && AllValid(now) && m.Valid()
    requires h in was[i].states && Movable(was[i], h, |was|, h2) && m == Moved(was[i], h, |was|, h2)
    ensures |now| == |was| && AllValid(now[i := m]) && MovedUpTo(was, now[i := m], h, h2, i + 1)
  {
    hide Mesh.Valid, Movable, Moved;
  }

  lemma StoppedAt(was: seq<Mesh>, h: int, h2: int, i: nat)
    requires i < |was| && !Movable(was[i], h, |was|, h2)
    ensures !AllMovable(was, h, h2)
  {
    hide Movable;
  }

  lemma AllMoved(was: seq<Mesh>, now: seq<Mesh>, h: int, h2: int)
    requires MovedUpTo(was, now, h, h2, |was|)
    ensures AllMovable(was, h, h2) && |now| == |was|
  {
    hide Movable, Moved;
  }

  class DistributedStatesUnion {
    var members: seq<Mesh>
    var heteroDim: int

    ghost predicate Valid()
      reads this
    {
      AllValid(members)
    }

    constructor ()
      ensures members == [] && heteroDim == NULL_HETERO_DIM
    {
      members, heteroDim := [], NULL_HETERO_DIM;
    }

    /** The list constructor; an error (`ok` false) for several members and no hetero dimension. */
    method Construct(list: seq<Mesh>, h: int) returns (ok: bool)
      modifies this
      ensures ok <==> (|list| > 1 ==> h != NULL_HETERO_DIM)
      ensures members == list && heteroDim == h
    {
      members, heteroDim := list, h;
      ok := true;
      if |list| > 1 && h == NULL_HETERO_DIM {
        ok := false;
      }
    }

    /**
     `to_hetero`: the copies go through the list constructor before they get their hetero
     dimension, so that a single copy is all it accepts.
     */
    method ToHetero(dim: int, num: nat) returns (ok: bool, ret: DistributedStatesUnion)
      requires Valid() && num >= 1
      ensures fresh(ret)
      ensures ok <==> num == 1 && |members| == 1 && heteroDim == NULL_HETERO_DIM && dim in members[0].states
      ensures ok ==> ret.Valid() && ret.members == members && ret.heteroDim == dim
      ensures ok ==> IsHetero(ret.members, ret.heteroDim) != Some(true)
      ensures ok && dim != NULL_HETERO_DIM ==> forall i: nat :: LocalOf(ret.members, ret.heteroDim, i) == None
    {
      hide Mesh.Valid, LocalPart;
      ret := new DistributedStatesUnion();
      if IsHetero(members, heteroDim) != Some(false) || |members| != 1 {
        return false, ret;
      }
      var ds := members[0];
      if dim !in ds.states || ds.states[dim] % num != 0 {
        return false, ret;
      }
      var copies: seq<Mesh> := [];
      for i := 0 to num
        invariant |copies| == i && forall k | 0 <= k < i :: copies[k] == ds
      {
        copies := copies + [ds];
      }
      ok := ret.Construct(copies, NULL_HETERO_DIM);
      if ok {
        assert copies == members;
        ret.SetHeteroDim(dim);
      }
    }

    method SetHeteroDim(dim: int)
      modifies this`heteroDim
      ensures heteroDim == dim
    {
      heteroDim := dim;
    }

    method GetLocal(i: nat) returns (local: Option<Mesh>)
      requires Valid()
      ensures local == LocalOf(members, heteroDim, i)
      ensures local.Some? ==> local.value.Valid()
    {
      hide Mesh.Valid, Normalize, BuiltOrder, LocalStates, LocalOrder;
      if IsHetero(members, heteroDim).None? || i >= |members| {
        return None;
      }
      if !IsHetero(members, heteroDim).value {
        return Some(members[0]);
      }
      var ds, n := members[i], |members|;
      LocalPartIff(ds, heteroDim, n);
      if ds.Dim(heteroDim) % n != 0 {
        return None;
      }
      LocalIsMesh(ds, heteroDim, n, ds.Dim(heteroDim) / n);
      local := Built(ds.deviceNum / n, LocalStates(ds, heteroDim, n), LocalOrder(ds, heteroDim, n), ds.zero);
    }

    /**
     Moves the hetero dimension to `h2`, member by member. An error leaves the members before
     the offending one already moved and the hetero dimension unchanged.
     */
    method ChangeHeteroDim(h2: int) returns (ok: bool)
      requires Valid()
      modifies this
      ensures ok <==> old(heteroDim) != NULL_HETERO_DIM && |old(members)| > 1
                      && AllMovable(old(members), old(heteroDim), h2)
      ensures ok ==> Valid() && heteroDim == h2
      ensures ok ==> MovedUpTo(old(members), members, old(heteroDim), h2, |old(members)|)
      ensures !ok ==> heteroDim == old(heteroDim)
      ensures !ok ==> exists k: nat :: MovedUpTo(old(members), members, heteroDim, h2, k)
    {
      hide *;
      ghost var was, h := members, heteroDim;
      NothingMoved(was, h, h2);
      if heteroDim == NULL_HETERO_DIM || |members| <= 1 {
        return false;
      }
      var n := |members|;
      ValidMeans();
      for i := 0 to n
        invariant heteroDim == h && n == |was| == |members| && AllValid(members)
        invariant MovedUpTo(was, members, h, h2, i)
      {
        NotMovedAt(was, members, h, h2, i);
        ValidMeans();
        var moved := MoveMember(members[i], n, h2);
        if moved.None? {
          StoppedAt(was, h, h2, i);
          return false;
        }
        MoveNext(was, members, h, h2, i, moved.value);
        members := members[i := moved.value];
      }
      AllMoved(was, members, h, h2);
      heteroDim := h2;
      ValidMeans();
      return true;
    }

    lemma ValidMeans()
      ensures Valid() <==> AllValid(members)
    {
      hide AllValid;
    }

    /** One round of the loop of `ChangeHeteroDim`. */
    method MoveMember(ds: Mesh, n: nat, h2: int) returns (moved: Option<Mesh>)
      requires Valid() && ds in members && n == |members| > 1 && heteroDim != NULL_HETERO_DIM
      ensures moved.Some? <==> Movable(ds, heteroDim, n, h2)
      ensures moved.Some? ==>
                heteroDim in ds.states && moved.value == Moved(ds, heteroDim, n, h2) && moved.value.Valid()
    {
      MovableMeans(ds, heteroDim, n, h2);
      hide Movable, LocalOf, LocalPart, Mesh.Valid, Normalize, BuiltOrder, LocalMesh, RaisedStates;
      hide RaisedOrder, Buildable, Build, Moved, PickedFrom, Collections.Increasing, Kept, LocalStates, LocalOrder;
      if |ds.order| == 0 || ds.order[0] != heteroDim {
        return None;
      }
      var local := GetLocal(IndexOf(members, ds));
      assert local == LocalPart(ds, heteroDim, n) by { LocalOfHetero(members, heteroDim, IndexOf(members, ds)); }
      if local.None? {
        return None;
      }
      var states, order := RaisedStates(local.value, h2, n), RaisedOrder(local.value, h2);
      if order == [] || order[0] != h2 {
        return None;
      }
      moved := Built(ds.deviceNum, states, order, ds.zero);
    }
  }

  /** A layout built by the constructors. */
  method Built(n: int, states: map<int, int>, order: seq<int>, zero: bool) returns (m: Option<Mesh>)
    ensures m == if n != -1 && Buildable(n, states, order) then Some(Build(n, states, order, zero)) else None
  {
    hide Mesh.Valid, Buildable, Build, PickedFrom;
    var res := new DistributedStates();
    var ok := res.Construct(n, states, order, zero);
    return if ok then Some(res.Value()) else None;
  }

  lemma LocalOfHetero(members: seq<Mesh>, h: int, i: nat)
    requires |members| > 1 && h != NULL_HETERO_DIM && i < |members|
    ensures LocalOf(members, h, i) == LocalPart(members[i], h, |members|)
  {
  }

  /**
   A member is moved exactly when the old dimension leads its order and divides evenly, and the new one leads what
   is left of the order or is not in it.
   */
  lemma MovableIff(m: Mesh, h: int, n: nat, h2: int)
    requires m.Valid() && n > 1
    ensures Movable(m, h, n, h2) <==>
            && m.order != [] && m.order[0] == h && h in m.states && m.states[h] % n == 0
            && var rest := if m.states[h] == n then m.order[1..] else m.order;
               h2 !in rest || rest[0] == h2
  {
    hide LocalMesh, RaisedOrder, Mesh.Valid;
    assert h in m.states ==> m.Dim(h) == m.states[h];
    if m.order != [] && m.order[0] == h && h in m.states && m.states[h] % n == 0 {
      LocalRest(m, h, n);
      RaisedLeads(LocalMesh(m, h, n), h2);
    }
  }

  lemma RaisedLeads(l: Mesh, h2: int)
    ensures RaisedOrder(l, h2) != []
    ensures RaisedOrder(l, h2)[0] == h2 <==> h2 !in l.order || l.order[0] == h2
  {
  }

  lemma LocalRest(m: Mesh, h: int, n: nat)
    requires m.Valid() && n > 1 && m.order != [] && m.order[0] == h && h in m.states && m.states[h] % n == 0
    ensures LocalMesh(m, h, n).order == if m.states[h] == n then m.order[1..] else m.order
  {
    hide Mesh.Valid, LocalMesh, WithoutDim, LocalPart;
    var span := m.states[h] / n;
    LocalPartIff(m, h, n);
    LocalIsMesh(m, h, n, span);
    SizePositive(m);
    ExactQuotient(m.states[h], n);
    WithoutLead(m.order);
    OneSpan(m.states[h], n, span);
  }

  lemma OneSpan(x: int, n: nat, span: nat)
    requires x == n * span && n > 1
    ensures span == 1 <==> x == n
  {
    if span > 1 { MixedRadix.MulMono(2, span, n); }
  }

  lemma WithoutLead(order: seq<int>)
    requires order != []
    ensures WithoutDim(order, order[0]) == order[1..]
  {
    assert IndexOf(order, order[0]) == 0;
  }

  /** The assertions of one step, in the order they are raised; when none fires the result is a proper mesh. */
  lemma MovableMeans(m: Mesh, h: int, n: nat, h2: int)
    requires m.Valid() && n > 1
    ensures Movable(m, h, n, h2) <==>
            && |m.order| > 0 && m.order[0] == h && LocalPart(m, h, n).Some?
            && RaisedOrder(LocalPart(m, h, n).value, h2) != [] && RaisedOrder(LocalPart(m, h, n).value, h2)[0] == h2
    ensures Movable(m, h, n, h2) ==>
              var l := LocalMesh(m, h, n);
              && LocalPart(m, h, n) == Some(l) && m.deviceNum != -1
              && Buildable(m.deviceNum, RaisedStates(l, h2, n), RaisedOrder(l, h2))
              && Moved(m, h, n, h2) == Build(m.deviceNum, RaisedStates(l, h2, n), RaisedOrder(l, h2), m.zero)
              && Moved(m, h, n, h2).Valid()
  {
    hide Mesh.Valid, Normalize, BuiltOrder, LocalMesh, RaisedStates, Buildable, LocalPart;
    LocalPartIff(m, h, n);
    SizePositive(m);
    if Movable(m, h, n, h2) {
      MoveKeepsLocal(m, h, n, m.Dim(h) / n, h2);
    }
  }

  /**
   Moving the hetero dimension leaves the layouts alone: every member keeps its device count,
   and its local layout is the same mesh, unless the dimension moved to is the null one.
   */
  lemma ChangeKeepsLocals(was: seq<Mesh>, now: seq<Mesh>, h: int, h2: int, i: nat)
    requires AllValid(was) && h != NULL_HETERO_DIM && |was| > 1
    requires MovedUpTo(was, now, h, h2, |was|) && i < |was|
    ensures now[i].deviceNum == was[i].deviceNum && LocalOf(was, h, i).Some?
    ensures LocalOf(now, h2, i) == LocalOf(was, h, i) <==> h2 != NULL_HETERO_DIM
  {
    hide Mesh.Valid, Normalize, BuiltOrder, LocalMesh, RaisedStates, Buildable, LocalPart;
    var m, n := was[i], |was|;
    LocalOfHetero(was, h, i);
    assert Movable(m, h, n, h2) && m.Valid();
    LocalPartIff(m, h, n);
    MoveKeepsLocal(m, h, n, m.Dim(h) / n, h2);
    var span: nat := LocalMesh(m, h, n).Dim(h2);
    var m2 := Raised(m, LocalMesh(m, h, n), h2, n);
    assert now[i] == m2;
    if h2 != NULL_HETERO_DIM {
      LocalOfHetero(now, h2, i);
      CutDivides(m2, h2, n, span);
      LocalPartIff(m2, h2, n);
    }
  }

  /** Two devices split along dimension 0. */
  const TWO_DEVICES: Mesh := Mesh(2, map[PARTIAL := 1, DUPLICATE := 1, 0 := 2], [0], false)

  /** Moving to the null dimension is accepted, and the local layouts are lost. */
  lemma MoveToNullAccepted(now: seq<Mesh>)
    requires MovedUpTo([TWO_DEVICES, TWO_DEVICES], now, 0, NULL_HETERO_DIM, 2)
    ensures AllValid([TWO_DEVICES, TWO_DEVICES]) && AllMovable([TWO_DEVICES, TWO_DEVICES], 0, NULL_HETERO_DIM)
    ensures LocalOf(now, NULL_HETERO_DIM, 0) != LocalOf([TWO_DEVICES, TWO_DEVICES], 0, 0)
  {
    TwoDevicesMovable();
    hide MovedUpTo, LocalOf, Movable;
    ChangeKeepsLocals([TWO_DEVICES, TWO_DEVICES], now, 0, NULL_HETERO_DIM, 0);
  }

  lemma TwoDevicesMovable()
    ensures TWO_DEVICES.Valid() && Movable(TWO_DEVICES, 0, 2, NULL_HETERO_DIM)
    ensures AllMovable([TWO_DEVICES, TWO_DEVICES], 0, NULL_HETERO_DIM)
  {
    hide Movable, Mesh.Valid, LocalMesh;
    var m := TWO_DEVICES;
    TwoDevicesValid();
    LocalOrderKeeps(m);
    RaisedToFront(m);
  }

  lemma RaisedToFront(m: Mesh)
    requires m.Dim(0) % 2 == 0 && 0 in m.states && m.order == [0] && NULL_HETERO_DIM !in LocalMesh(m, 0, 2).order
    ensures Movable(m, 0, 2, NULL_HETERO_DIM)
  {
    hide LocalMesh;
  }

  lemma TwoDevicesValid()
    ensures TWO_DEVICES.Valid()
  {
    var m := TWO_DEVICES;
    var two: seq<nat> := [2];
    assert two[..0] == [] && MixedRadix.Prod(two) == 2;
    assert Pick(m.states, m.order) == two;
    assert m.Radices() == two;
  }

  lemma LocalOrderKeeps(m: Mesh)
    requires m == TWO_DEVICES && m.Valid()
    ensures NULL_HETERO_DIM !in LocalMesh(m, 0, 2).order
  {
    LocalIsMesh(m, 0, 2, 1);
    var i := IndexOf(m.order, 0);
    assert PartOrder(m, 0, 1) == [];
  }

  lemma CutDivides(m: Mesh, h: int, n: nat, span: nat)
    requires Cut(m, h, n, span)
    ensures m.Dim(h) % n == 0 && m.Valid()
  {
    assert h in m.states by { var i := IndexOf(m.order, h); }
    hide Mesh.Valid;
    MixedRadix.MulComm(n, span);
    MixedRadix.DivModOf(span, n, 0);
  }

  // ---------- the sub-meshes of a union ----------

  /** Some device has rank `j` in group `g` of a hetero union. */
  ghost predicate HasRank(members: seq<Mesh>, h: int, g: nat, j: nat) {
    && AllValid(members) && g < |members| && h in members[g].order
    && var span := members[g].Dim(h) / |members|;
       span >= 1 && j < |Group(members[g], h, span, g)|
  }

  /**
   The sub-mesh theorem on any union that the list constructor accepts and `get_local` answers
   for: rank `j` of group `g`, read through `get_local(g)`, is the place of that device in member
   `g` with the cut digit reduced modulo the span.
   */
  lemma SubMeshOfUnion(members: seq<Mesh>, h: int, g: nat, j: nat)
    requires |members| > 1 && h != NULL_HETERO_DIM && HasRank(members, h, g, j) && LocalOf(members, h, g).Some?
    ensures var m, span, l := members[g], members[g].Dim(h) / |members|, LocalOf(members, h, g).value;
            && l.Valid() && j < l.deviceNum
            && var x := Group(m, h, span, g)[j];
               && x < m.deviceNum && m.Coord(h, x) / span == g
               && forall d <- l.order ::
                    d in m.order && l.Coord(d, j) == if d == h then m.Coord(h, x) % span else m.Coord(d, x)
  {
    hide Mesh.Valid, LocalMesh, LocalPart, Mesh.Coord, Group;
    var m, n := members[g], |members|;
    LocalOfHetero(members, h, g);
    assert m.Valid();
    LocalPartIff(m, h, n);
    SubMeshCoords(m, h, n, m.Dim(h) / n, g, j);
  }
}
