/** The value of a `DistributedStates`: a mixed-radix numbering of devices. */
module DeviceMesh {
  import opened Collections
  import opened MixedRadix

  const PARTIAL: int := -2
  const DUPLICATE: int := -1

  /**
   `order` lists the digits, most significant first, and `states` gives each radix. Dimension -2
   is partial, -1 is duplicate, 0 and above are split dimensions.
   */
  datatype Mesh = Mesh(deviceNum: int, states: map<int, int>, order: seq<int>, zero: bool) {

    /** The size of a dimension; a dimension that is not split counts as 1. */
    function Dim(d: int): int {
      if d in states then states[d] else 1
    }

    ghost predicate Valid() {
      && PARTIAL in states && DUPLICATE in states
      && (forall k <- states :: states[k] >= 1)
      && (forall k <- states :: k != PARTIAL && k != DUPLICATE ==> states[k] > 1)
      && NoDup(order)
      && (forall i | 0 <= i < |order| :: order[i] in states && states[order[i]] > 1)
      && (forall k <- states :: states[k] > 1 ==> k in order)
      && Prod(Radices()) == deviceNum
    }

    function Radices(): (rs: seq<nat>)
      requires forall i | 0 <= i < |order| :: order[i] in states && states[order[i]] >= 1
      ensures |rs| == |order|
      ensures AllPos(rs)
      ensures forall i | 0 <= i < |order| :: rs[i] == states[order[i]]
    {
      Pick(states, order)
    }

    /** The coordinate of device `x` along dimension `d`. */
    ghost function Coord(d: int, x: nat): (c: nat)
      requires Valid() && d in order
      ensures c < states[d]
    {
      hide Digits, Prod, Pick;
      Digits(Radices(), x)[IndexOf(order, d)]
    }
  }

  lemma OrderedDim(m: Mesh, d: int)
    requires m.Valid() && d in m.order
    ensures d in m.states && m.states[d] > 1
  {
    hide Prod, Pick;
    var i := IndexOf(m.order, d);
    assert m.states[m.order[i]] > 1;
  }

  lemma CoordAt(m: Mesh, i: nat, x: nat)
    requires m.Valid() && i < |m.order|
    ensures m.order[i] in m.order && m.Coord(m.order[i], x) == Digits(m.Radices(), x)[i]
  {
    hide Digits, Prod, Pick;
    IndexOfEvery(m.order);
  }

  /** The values `m` gives to a list of dimensions. */
  function Pick(m: map<int, int>, dims: seq<int>): (vs: seq<nat>)
    requires forall i | 0 <= i < |dims| :: dims[i] in m && m[dims[i]] >= 0
    ensures |vs| == |dims|
    ensures forall i | 0 <= i < |dims| :: vs[i] == m[dims[i]]
  {
    if dims == [] then [] else [m[dims[0]]] + Pick(m, dims[1..])
  }

  /** A device's place along a dimension; 0 where the mesh does not split it. */
  ghost function PlaceAlong(m: Mesh, d: int, x: nat): nat
    requires m.Valid()
  {
    if d in m.order then m.Coord(d, x) else 0
  }

  // ---------- coordinates are a bijection ----------

  /** The device with the given coordinates, as the sum of coordinates times loop sizes. */
  ghost function DeviceOf(m: Mesh, c: map<int, nat>): int
    requires m.Valid() && forall i | 0 <= i < |m.order| :: m.order[i] in c
  {
    Dot(Pick(c, m.order), Weights(m.Radices()))
  }

  lemma DeviceFromCoords(m: Mesh, c: map<int, nat>, x: nat)
    requires m.Valid() && x < m.deviceNum
    requires forall d <- m.order :: d in c && c[d] == m.Coord(d, x)
    requires forall i | 0 <= i < |m.order| :: m.order[i] in c
    ensures DeviceOf(m, c) == x
  {
    hide Prod, Rank, Digits, Pick, Dot, Weights;
    var rs := m.Radices();
    forall i | 0 <= i < |rs| ensures Pick(c, m.order)[i] == Digits(rs, x)[i] {
      CoordAt(m, i, x);
    }
    assert Pick(c, m.order) == Digits(rs, x);
    RankOfDigits(rs, x);
    RankIsDot(rs, Digits(rs, x));
  }

  lemma CoordsFromDevice(m: Mesh, c: map<int, nat>)
    requires m.Valid()
    requires forall i | 0 <= i < |m.order| :: m.order[i] in c && c[m.order[i]] < m.states[m.order[i]]
    ensures 0 <= DeviceOf(m, c) < m.deviceNum
    ensures forall d <- m.order :: d in c && m.Coord(d, DeviceOf(m, c)) == c[d]
  {
    hide Prod, Rank, Digits, Pick, Dot, Weights;
    var rs, ds := m.Radices(), Pick(c, m.order);
    DigitsOfRank(rs, ds);
    RankIsDot(rs, ds);
    forall d | d in m.order ensures d in c && m.Coord(d, DeviceOf(m, c)) == c[d] {
      CoordAt(m, IndexOf(m.order, d), DeviceOf(m, c));
    }
  }

  /** Two devices with the same coordinate on every dimension are the same device. */
  lemma SameCoordsSameDevice(m: Mesh, x: nat, y: nat)
    requires m.Valid() && x < m.deviceNum && y < m.deviceNum
    requires forall d <- m.order :: m.Coord(d, x) == m.Coord(d, y)
    ensures x == y
  {
    hide Prod, Rank, Digits, Pick;
    var rs := m.Radices();
    forall i | 0 <= i < |rs| ensures Digits(rs, x)[i] == Digits(rs, y)[i] {
      CoordAt(m, i, x);
      CoordAt(m, i, y);
    }
    DigitsInjective(rs, x, y);
  }

  // ---------- communication groups ----------

  /** The devices reached from `x` by running the coordinate on `dim` through its radix. */
  ghost function Siblings(m: Mesh, dim: int, x: nat): (g: seq<nat>)
    requires m.Valid() && dim in m.order && x < m.deviceNum
    ensures |g| == m.states[dim]
  {
    var p := IndexOf(m.order, dim);
    seq(m.states[dim], j requires 0 <= j < m.states[dim] => Rank(m.Radices(), Digits(m.Radices(), x)[p := j]))
  }

  /** Member `j` of the group has coordinate `j` on `dim` and agrees with `x` everywhere else. */
  lemma SiblingCoords(m: Mesh, dim: int, x: nat, j: nat)
    requires m.Valid() && dim in m.order && x < m.deviceNum && j < m.states[dim]
    ensures Siblings(m, dim, x)[j] < m.deviceNum
    ensures forall d <- m.order ::
              m.Coord(d, Siblings(m, dim, x)[j]) == if d == dim then j else m.Coord(d, x)
  {
    hide Prod, Rank, Digits, Pick;
    var rs, p := m.Radices(), IndexOf(m.order, dim);
    var ds := Digits(rs, x)[p := j];
    DigitsOfRank(rs, ds);
    forall d | d in m.order ensures m.Coord(d, Rank(rs, ds)) == if d == dim then j else m.Coord(d, x) {
      var i := IndexOf(m.order, d);
      CoordAt(m, i, Rank(rs, ds));
      CoordAt(m, i, x);
    }
  }

  /** The group is exactly the set of devices agreeing with `x` on every other dimension. */
  lemma SiblingsExact(m: Mesh, dim: int, x: nat, y: nat)
    requires m.Valid() && dim in m.order && x < m.deviceNum
    ensures y in Siblings(m, dim, x) <==>
            y < m.deviceNum && forall d <- m.order :: d != dim ==> m.Coord(d, y) == m.Coord(d, x)
  {
    hide Prod, Rank, Digits, Pick;
    var g := Siblings(m, dim, x);
    if y in g {
      var j :| 0 <= j < |g| && g[j] == y;
      SiblingCoords(m, dim, x, j);
    } else if y < m.deviceNum && forall d <- m.order :: d != dim ==> m.Coord(d, y) == m.Coord(d, x) {
      SiblingReached(m, dim, x, y);
      assert false;
    }
  }

  lemma SiblingReached(m: Mesh, dim: int, x: nat, y: nat)
    requires m.Valid() && dim in m.order && x < m.deviceNum && y < m.deviceNum
    requires forall d <- m.order :: d != dim ==> m.Coord(d, y) == m.Coord(d, x)
    ensures y in Siblings(m, dim, x) && Siblings(m, dim, x)[m.Coord(dim, y)] == y
  {
    hide Prod, Rank, Digits, Pick;
    SiblingCoords(m, dim, x, m.Coord(dim, y));
    SameCoordsSameDevice(m, Siblings(m, dim, x)[m.Coord(dim, y)], y);
  }

  /** Groups along one dimension partition the mesh: a shared member means the same group. */
  lemma SiblingsPartition(m: Mesh, dim: int, x: nat, y: nat)
    requires m.Valid() && dim in m.order && x < m.deviceNum && y < m.deviceNum
    ensures x in Siblings(m, dim, x)
    ensures y in Siblings(m, dim, x) ==> Siblings(m, dim, y) == Siblings(m, dim, x)
    ensures y !in Siblings(m, dim, x) ==> forall z | z in Siblings(m, dim, x) :: z !in Siblings(m, dim, y)
  {
    SiblingsExact(m, dim, x, x);
    if y in Siblings(m, dim, x) {
      SiblingsSame(m, dim, x, y);
    } else {
      forall z | z in Siblings(m, dim, x) ensures z !in Siblings(m, dim, y) {
        SiblingsExact(m, dim, x, y);
        SiblingsExact(m, dim, x, z);
        SiblingsExact(m, dim, y, z);
      }
    }
  }

  lemma SiblingSame(m: Mesh, dim: int, x: nat, y: nat, j: nat)
    requires m.Valid() && dim in m.order && x < m.deviceNum && y < m.deviceNum && j < m.states[dim]
    requires forall d <- m.order :: d != dim ==> m.Coord(d, y) == m.Coord(d, x)
    ensures Siblings(m, dim, x)[j] == Siblings(m, dim, y)[j]
  {
    hide Prod, Rank, Digits, Pick;
    SiblingCoords(m, dim, x, j);
    SiblingCoords(m, dim, y, j);
    SameCoordsSameDevice(m, Siblings(m, dim, x)[j], Siblings(m, dim, y)[j]);
  }

  lemma SiblingsSame(m: Mesh, dim: int, x: nat, y: nat)
    requires m.Valid() && dim in m.order && x < m.deviceNum && y in Siblings(m, dim, x)
    ensures y < m.deviceNum && Siblings(m, dim, y) == Siblings(m, dim, x)
  {
    hide Prod, Rank, Digits, Pick;
    SiblingsExact(m, dim, x, y);
    forall j: nat | j < m.states[dim] ensures Siblings(m, dim, x)[j] == Siblings(m, dim, y)[j] {
      SiblingSame(m, dim, x, y, j);
    }
  }

  // ---------- duplicate groups ----------

  function SplitDims(m: Mesh): (ds: seq<int>) {
    Sorted(set d | d in m.order && d >= 0)
  }

  lemma SplitDimsInOrder(m: Mesh)
    requires m.Valid()
    ensures forall i | 0 <= i < |SplitDims(m)| ::
              SplitDims(m)[i] in m.order && SplitDims(m)[i] >= 0 && SplitDims(m)[i] in m.states
  {
    var ds := SplitDims(m);
    forall i | 0 <= i < |ds| ensures ds[i] in m.order && ds[i] >= 0 && ds[i] in m.states {
      assert ds[i] in ds;
    }
  }

  /** The coordinates of `x` along a list of dimensions of the order. */
  ghost function CoordsAlong(m: Mesh, dims: seq<int>, x: nat): (cs: seq<nat>)
    requires m.Valid() && forall i | 0 <= i < |dims| :: dims[i] in m.order
    ensures |cs| == |dims|
    ensures forall i | 0 <= i < |dims| :: cs[i] == m.Coord(dims[i], x)
  {
    if dims == [] then [] else [m.Coord(dims[0], x)] + CoordsAlong(m, dims[1..], x)
  }

  ghost function DupGroup(m: Mesh, x: nat): nat
    requires m.Valid()
  {
    SplitDimsInOrder(m);
    Rank(Pick(m.states, SplitDims(m)), CoordsAlong(m, SplitDims(m), x))
  }

  /** Two devices share a duplicate group exactly when their split coordinates agree. */
  lemma DupGroupExact(m: Mesh, x: nat, y: nat)
    requires m.Valid()
    ensures DupGroup(m, x) == DupGroup(m, y) <==>
            forall d <- m.order :: d >= 0 ==> m.Coord(d, x) == m.Coord(d, y)
  {
    hide Prod, Rank, Digits, Pick, CoordsAlong;
    var ds := SplitDims(m);
    SplitDimsInOrder(m);
    var rs, cx, cy := Pick(m.states, ds), CoordsAlong(m, ds, x), CoordsAlong(m, ds, y);
    DigitsOfRank(rs, cx);
    DigitsOfRank(rs, cy);
    if cx == cy {
      forall d | d in m.order && d >= 0 ensures m.Coord(d, x) == m.Coord(d, y) {
        var i := IndexOf(ds, d);
        assert cx[i] == cy[i];
      }
    }
  }

  /**
   The groups are numbered by the split coordinates, the lowest dimension slowest: the first split dimension on
   which two devices differ decides which group comes first.
   */
  lemma DupGroupOrdered(m: Mesh, x: nat, y: nat, d: int)
    requires m.Valid() && d in m.order && d >= 0 && m.Coord(d, x) < m.Coord(d, y)
    requires forall e <- m.order :: 0 <= e < d ==> m.Coord(e, x) == m.Coord(e, y)
    ensures DupGroup(m, x) < DupGroup(m, y)
  {
    hide *;
    var ds := SplitDims(m);
    AscendingSplits(m, d);
    var p := IndexOf(ds, d);
    var rs, cx := SplitCoords(m, x);
    var rs', cy := SplitCoords(m, y);
    assert rs == rs';
    forall i | 0 <= i < p ensures cx[i] == cy[i] {
      assert ds[i] in m.order && 0 <= ds[i] < d;
    }
    assert cx[..p] == cy[..p];
    RankLess(rs, cx, cy, p);
  }

  lemma AscendingSplits(m: Mesh, d: int)
    requires m.Valid() && d in m.order && d >= 0
    ensures d in SplitDims(m)
    ensures forall i | 0 <= i < |SplitDims(m)| :: SplitDims(m)[i] in m.order && SplitDims(m)[i] >= 0
    ensures forall i | 0 <= i < IndexOf(SplitDims(m), d) :: SplitDims(m)[i] < d
  {
    SplitDimsInOrder(m);
    hide Mesh.Valid;
  }

  /** A group number is the rank of the split coordinates. */
  lemma SplitCoords(m: Mesh, x: nat) returns (rs: seq<nat>, cs: seq<nat>)
    requires m.Valid()
    ensures forall i | 0 <= i < |SplitDims(m)| :: SplitDims(m)[i] in m.order && SplitDims(m)[i] in m.states
    ensures |rs| == |cs| == |SplitDims(m)| && AllPos(rs) && InBase(rs, cs) && DupGroup(m, x) == Rank(rs, cs)
    ensures forall i | 0 <= i < |rs| :: rs[i] == m.states[SplitDims(m)[i]] && cs[i] == m.Coord(SplitDims(m)[i], x)
  {
    hide Prod, Rank, Digits, Pick, CoordsAlong, SplitDims;
    SplitDimsInOrder(m);
    rs, cs := Pick(m.states, SplitDims(m)), CoordsAlong(m, SplitDims(m), x);
  }
}
