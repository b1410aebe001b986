/**
 The local split of several dimensions at once: the duplicate digit of the source is spread over
 split dimensions of the destination.
 */
module LocalSplits {
  import opened Collections
  import opened MixedRadix
  import opened DeviceMesh
  import opened LocalScatter

  /** The device stride of a dimension. */
  ghost function LoopSize(m: Mesh, d: int): (w: nat)
    requires m.Valid() && d in m.order
    ensures w >= 1 && w * m.states[d] <= m.deviceNum && m.states[d] > 1
  {
    hide Prod, Pick, Digits;
    var rs, p := m.Radices(), IndexOf(m.order, d);
    assert m.states[m.order[p]] > 1;
    StrideFits(rs, p);
    Prod(rs[p + 1..])
  }

  lemma StrideFits(rs: seq<nat>, p: nat)
    requires AllPos(rs) && p < |rs|
    ensures Prod(rs[p + 1..]) >= 1 && Prod(rs[p + 1..]) * rs[p] <= Prod(rs)
  {
    hide Prod;
    ProdSplit(rs, p);
    ProdPos(rs[..p]);
    ProdPos(rs[p + 1..]);
    MulMono(1, Prod(rs[..p]), rs[p] * Prod(rs[p + 1..]));
    MulAssoc(Prod(rs[..p]), rs[p], Prod(rs[p + 1..]));
    MulComm(rs[p], Prod(rs[p + 1..]));
  }

  lemma CoordIsQuotient(m: Mesh, d: int, x: nat)
    requires m.Valid() && d in m.order
    ensures m.Coord(d, x) == (x / LoopSize(m, d)) % m.states[d]
  {
    var p := IndexOf(m.order, d);
    CoordAt(m, p, x);
    DigitAt(m.Radices(), x, p);
  }

  /** How many chunks a dimension is cut into. */
  function Splits(src: Mesh, dst: Mesh, o: int): int
    requires src.Dim(o) >= 1
  {
    dst.Dim(o) / src.Dim(o)
  }

  /** `check_split`: sizes divide, and the duplicate size of the source is used up by the finer dimensions. */
  function SplitNum(src: Mesh, dst: Mesh, order: seq<int>): int
    requires forall d :: src.Dim(d) >= 1
  {
    if order == [] then 1 else
      var o := order[|order| - 1];
      SplitNum(src, dst, order[..|order| - 1]) * if o >= 0 then Splits(src, dst, o) else 1
  }

  predicate CheckSplit(src: Mesh, dst: Mesh)
    requires forall d :: src.Dim(d) >= 1
  {
    && (forall i | 0 <= i < |dst.order| && dst.order[i] >= 0 :: dst.Dim(dst.order[i]) % src.Dim(dst.order[i]) == 0)
    && dst.Dim(-2) == src.Dim(-2) && SplitNum(src, dst, dst.order) > 1
    && src.Dim(-1) == SplitNum(src, dst, dst.order)
  }

  /** The source does not split the dimension, or its stride is the destination's times the chunks. */
  ghost predicate StrideMatches(src: Mesh, dst: Mesh, o: int)
    requires src.Valid() && dst.Valid() && o in dst.order && src.Dim(o) >= 1
  {
    o !in src.order || LoopSize(src, o) == LoopSize(dst, o) * Splits(src, dst, o)
  }

  // ---------- the arithmetic of one dimension ----------

  lemma QuotientOfCoord(x: nat, w: nat, n: nat, r: nat)
    requires w >= 1 && n >= 1 && r >= 1
    ensures w * r >= 1 && n * r >= 1 && ((x / w) % (n * r)) / r == (x / (w * r)) % n
  {
    SplitTwice(x / w, n, r);
    MulComm(w, r);
    SplitTwice(x, r, w);
  }

  /** The chunk picked is the destination block exactly when the high part of the new coordinate is the old one. */
  lemma ChunkIff(len: nat, n: nat, r: nat, c: nat, c': nat)
    requires n >= 1 && r >= 1 && n * r >= 1 && len > 0 && len % (n * r) == 0
    ensures Chunk(Block(len, n, c), r, c' % r) == Block(len, n * r, c') <==> c' / r == c
  {
    var q := len / (n * r);
    assert len == (n * r) * q && q >= 1;
    BlockLengths(len, n, r, q);
    var h, e := c' / r, c' % r;
    assert c' == h * r + e by { MulComm(h, r); }
    ChunkStarts(c, h, e, r, q);
  }

  lemma BlockLengths(len: nat, n: nat, r: nat, q: nat)
    requires n >= 1 && r >= 1 && len == (n * r) * q
    ensures len / n == r * q && (r * q) / r == q
  {
    MulAssoc(n, r, q);
    MulComm(n, r * q);
    DivModOf(r * q, n, 0);
    MulComm(r, q);
    DivModOf(q, r, 0);
  }

  lemma ChunkStarts(c: nat, h: nat, e: nat, r: nat, q: nat)
    requires r >= 1 && q >= 1
    ensures c * (r * q) + e * q == (h * r + e) * q <==> h == c
  {
    MulDist(h * r, e, q);
    MulAssoc(h, r, q);
    MulMono(1, r, q);
    if c * (r * q) == h * (r * q) {
      MulDist(c - h, h, r * q);
      MulComm(c - h, r * q);
      MulSmall(r * q, c - h);
    }
  }

  /** Two strides number the same digits only if they are equal. */
  lemma StrideTold(a: nat, b: nat, n: nat)
    requires 1 <= a < b && n > 1
    ensures (a / a) % n == 1 && (a / b) % n == 0
  {
    DivModOf(1, a, 0);
    DivModOf(0, b, a);
  }

  // ---------- one dimension of a mesh ----------

  lemma KeepsIff(src: Mesh, dst: Mesh, o: int, x: nat, len: nat)
    requires src.Valid() && dst.Valid() && src.Dim(o) >= 1 && dst.Dim(o) >= 1 && Splits(src, dst, o) >= 1
    requires dst.Dim(o) % src.Dim(o) == 0 && len > 0 && len % dst.Dim(o) == 0
    ensures KeepsItsBlock(src, dst, o, x, len) <==> PlaceAlong(dst, o, x) / Splits(src, dst, o) == PlaceAlong(src, o, x)
  {
    hide Mesh.Valid, PlaceAlong;
    var n, r := src.Dim(o), Splits(src, dst, o);
    assert dst.Dim(o) == n * r;
    ChunkIff(len, n, r, PlaceAlong(src, o, x), PlaceAlong(dst, o, x));
  }

  /** The high part of a destination coordinate, and the source coordinate, as quotients. */
  lemma PlacesAlong(src: Mesh, dst: Mesh, o: int, x: nat)
    requires src.Valid() && dst.Valid() && o in src.order && o in dst.order
    requires dst.states[o] == src.states[o] * Splits(src, dst, o)
    requires src.Dim(o) >= 1 && Splits(src, dst, o) >= 1
    ensures PlaceAlong(src, o, x) == (x / LoopSize(src, o)) % src.states[o]
    ensures LoopSize(dst, o) * Splits(src, dst, o) >= 1
    ensures PlaceAlong(dst, o, x) / Splits(src, dst, o)
         == (x / (LoopSize(dst, o) * Splits(src, dst, o))) % src.states[o]
  {
    CoordIsQuotient(src, o, x);
    CoordIsQuotient(dst, o, x);
    hide Mesh.Valid, Mesh.Coord, LoopSize;
    QuotientOfCoord(x, LoopSize(dst, o), src.states[o], Splits(src, dst, o));
  }

  lemma SplitSizes(src: Mesh, dst: Mesh, o: int)
    requires src.Valid() && dst.Valid() && o in dst.order && src.Dim(o) >= 1 && dst.Dim(o) % src.Dim(o) == 0
    ensures o in dst.states && dst.Dim(o) == dst.states[o] > 1 && Splits(src, dst, o) >= 1
    ensures dst.Dim(o) == src.Dim(o) * Splits(src, dst, o)
    ensures o in src.order ==> o in src.states && src.Dim(o) == src.states[o] > 1
    ensures o !in src.order ==> src.Dim(o) == 1
  {
    hide Prod, Pick;
    var i := IndexOf(dst.order, o);
    assert dst.states[dst.order[i]] > 1;
    if o in src.order {
      var j := IndexOf(src.order, o);
      assert src.states[src.order[j]] > 1;
    }
  }

  /** Every device gets the right block along one dimension if and only if the strides match. */
  lemma RightAlongIff(src: Mesh, dst: Mesh, o: int, len: nat)
    requires src.Valid() && dst.Valid() && src.deviceNum == dst.deviceNum && o in dst.order
    requires src.Dim(o) >= 1 && dst.Dim(o) % src.Dim(o) == 0 && len > 0 && len % dst.Dim(o) == 0
    ensures dst.Dim(o) >= 1 && Splits(src, dst, o) >= 1
    ensures (forall x: nat | x < src.deviceNum :: KeepsItsBlock(src, dst, o, x, len)) <==> StrideMatches(src, dst, o)
  {
    SplitSizes(src, dst, o);
    hide Mesh.Valid, PlaceAlong, LoopSize, KeepsItsBlock;
    if o !in src.order {
      forall x: nat | x < src.deviceNum ensures KeepsItsBlock(src, dst, o, x, len) {
        KeepsIff(src, dst, o, x, len);
        UnsplitPlace(src, dst, o, x);
      }
    } else {
      var a, b := LoopSize(src, o), LoopSize(dst, o) * Splits(src, dst, o);
      if a == b {
        forall x: nat | x < src.deviceNum ensures KeepsItsBlock(src, dst, o, x, len) {
          KeepsIff(src, dst, o, x, len);
          PlacesAlong(src, dst, o, x);
        }
      } else {
        var x := WrongDevice(src, dst, o);
        KeepsIff(src, dst, o, x, len);
      }
    }
  }

  /** The device at the smaller stride has coordinate 1 under one numbering and 0 under the other. */
  lemma WrongDevice(src: Mesh, dst: Mesh, o: int) returns (x: nat)
    requires src.Valid() && dst.Valid() && src.deviceNum == dst.deviceNum && o in src.order && o in dst.order
    requires src.Dim(o) >= 1 && Splits(src, dst, o) >= 1 && dst.states[o] == src.states[o] * Splits(src, dst, o)
    requires LoopSize(src, o) != LoopSize(dst, o) * Splits(src, dst, o)
    ensures x < src.deviceNum && PlaceAlong(dst, o, x) / Splits(src, dst, o) != PlaceAlong(src, o, x)
  {
    hide PlaceAlong, Mesh.Radices, Prod, Pick;
    var a, w, n, r := LoopSize(src, o), LoopSize(dst, o), src.states[o], Splits(src, dst, o);
    hide Mesh.Valid, LoopSize;
    var b := w * r;
    PlacesAlong(src, dst, o, 0);
    StrideBelow(a, n, src.deviceNum);
    assert w * dst.states[o] == b * n by {
      MulComm(n, r);
      MulAssoc(w, r, n);
    }
    StrideBelow(b, n, src.deviceNum);
    x := if a < b then a else b;
    PlacesAlong(src, dst, o, x);
    if a < b { StrideTold(a, b, n); } else { StrideTold(b, a, n); }
  }

  lemma StrideBelow(a: nat, n: nat, devices: int)
    requires a >= 1 && n > 1 && a * n <= devices
    ensures a < devices
  {
    MulMono(2, n, a);
    MulComm(n, a);
  }

  lemma UnsplitPlace(src: Mesh, dst: Mesh, o: int, x: nat)
    requires src.Valid() && dst.Valid() && o in dst.order && o !in src.order && src.Dim(o) == 1
    requires o in dst.states && dst.Dim(o) == dst.states[o] > 1
    ensures PlaceAlong(src, o, x) == 0 && Splits(src, dst, o) == dst.states[o]
    ensures PlaceAlong(dst, o, x) / Splits(src, dst, o) == 0
  {
    CoordIsQuotient(dst, o, x);
    hide Mesh.Valid, Mesh.Coord, LoopSize;
    DivModOf(0, dst.states[o], PlaceAlong(dst, o, x));
  }

  // ---------- the whole split ----------

  ghost predicate Cuttable(src: Mesh, dst: Mesh, lens: map<int, nat>) {
    && src.Valid() && dst.Valid() && src.deviceNum == dst.deviceNum
    && (forall d :: src.Dim(d) >= 1) && CheckSplit(src, dst)
    && (forall o <- dst.order :: o >= 0 ==> o in lens && dst.Dim(o) >= 1 && lens[o] > 0 && lens[o] % dst.Dim(o) == 0)
  }

  ghost predicate RightAlong(src: Mesh, dst: Mesh, o: int, len: nat)
    requires src.Valid() && dst.Valid() && src.Dim(o) >= 1 && dst.Dim(o) >= 1
  {
    Splits(src, dst, o) >= 1 && forall x: nat | x < src.deviceNum :: KeepsItsBlock(src, dst, o, x, len)
  }

  /**
   The split substituted for a communication, exactly: with the duplicate digit spread over any
   number of split dimensions, every device keeps its destination block along all of them if and
   only if each dimension that was split before keeps its stride: the source's loop size is the
   destination's times the number of chunks.
   */
  lemma SplitRightIff(src: Mesh, dst: Mesh, lens: map<int, nat>)
    requires Cuttable(src, dst, lens)
    ensures (forall o <- dst.order :: o >= 0 ==> RightAlong(src, dst, o, lens[o]))
       <==> (forall o <- dst.order :: o >= 0 ==> StrideMatches(src, dst, o))
  {
    hide StrideMatches, RightAlong, Mesh.Valid, LoopSize;
    forall o | o in dst.order && o >= 0 ensures RightAlong(src, dst, o, lens[o]) <==> StrideMatches(src, dst, o) {
      var i := IndexOf(dst.order, o);
      assert dst.Dim(dst.order[i]) % src.Dim(dst.order[i]) == 0;
      OneRightIff(src, dst, o, lens[o]);
    }
  }

  lemma OneRightIff(src: Mesh, dst: Mesh, o: int, len: nat)
    requires src.Valid() && dst.Valid() && src.deviceNum == dst.deviceNum && o in dst.order
    requires src.Dim(o) >= 1 && dst.Dim(o) >= 1 && dst.Dim(o) % src.Dim(o) == 0 && len > 0 && len % dst.Dim(o) == 0
    ensures RightAlong(src, dst, o, len) <==> StrideMatches(src, dst, o)
  {
    hide StrideMatches, KeepsItsBlock;
    RightAlongIff(src, dst, o, len);
  }

  // ---------- a split that goes wrong ----------

  /** Four copies of two halves; the four are to be spread over dimensions 0 and 1. */
  const COPIES_FIRST: Mesh := Mesh(8, map[-2 := 1, -1 := 4, 0 := 2], [-1, 0], false)
  const SPREAD: Mesh := Mesh(8, map[-2 := 1, -1 := 1, 0 := 4, 1 := 2], [0, 1], false)

  /** The duplicate digit comes before dimension 0, whose stride changes: some device misses its block there. */
  lemma CopiesFirstMisses()
    ensures Cuttable(COPIES_FIRST, SPREAD, map[0 := 4, 1 := 2])
    ensures !RightAlong(COPIES_FIRST, SPREAD, 0, 4)
  {
    CopiesCuttable(map[0 := 4, 1 := 2]);
    CopiesStride();
    hide *;
    OneRightIff(COPIES_FIRST, SPREAD, 0, 4);
  }

  lemma CopiesCuttable(lens: map<int, nat>)
    requires lens == map[0 := 4, 1 := 2]
    ensures Cuttable(COPIES_FIRST, SPREAD, lens)
  {
    var src, dst := COPIES_FIRST, SPREAD;
    CopiesValid();
    SpreadValid();
    CopiesDims(src, dst);
    hide *;
    SpreadNum(src, dst);
    CuttableBy(src, dst, lens);
  }

  lemma CuttableBy(src: Mesh, dst: Mesh, lens: map<int, nat>)
    requires src.Valid() && dst.Valid() && src.deviceNum == dst.deviceNum && forall d :: src.Dim(d) >= 1
    requires src.Dim(0) == 2 && src.Dim(1) == 1 && src.Dim(-1) == 4 && src.Dim(-2) == 1
    requires dst.Dim(0) == 4 && dst.Dim(1) == 2 && dst.Dim(-2) == 1 && dst.order == [0, 1]
    requires SplitNum(src, dst, [0, 1]) == 4 && lens == map[0 := 4, 1 := 2]
    ensures Cuttable(src, dst, lens)
  {
    hide Mesh.Valid, Mesh.Dim, SplitNum;
  }

  lemma CopiesDims(src: Mesh, dst: Mesh)
    requires src == COPIES_FIRST && dst == SPREAD
    ensures src.deviceNum == dst.deviceNum && dst.order == [0, 1] && forall d :: src.Dim(d) >= 1
    ensures src.Dim(0) == 2 && src.Dim(1) == 1 && src.Dim(-1) == 4 && src.Dim(-2) == 1
    ensures dst.Dim(0) == 4 && dst.Dim(1) == 2 && dst.Dim(-2) == 1
  {
  }

  lemma SpreadNum(src: Mesh, dst: Mesh)
    requires forall d :: src.Dim(d) >= 1
    requires src.Dim(0) == 2 && src.Dim(1) == 1 && dst.Dim(0) == 4 && dst.Dim(1) == 2
    ensures SplitNum(src, dst, [0, 1]) == 4
  {
    hide Mesh.Dim;
    assert Splits(src, dst, 0) == 2 && Splits(src, dst, 1) == 2;
    hide Splits;
    assert [0, 1][..1] == [0] && [0][..0] == [];
    assert SplitNum(src, dst, []) == 1;
    assert SplitNum(src, dst, [0]) == 2;
  }

  lemma CopiesValid()
    ensures COPIES_FIRST.Valid() && COPIES_FIRST.Radices() == [4, 2]
  {
    ProdOfPair(4, 2);
    assert COPIES_FIRST.Radices() == [4, 2];
    hide Prod;
  }

  lemma SpreadValid()
    ensures SPREAD.Valid() && SPREAD.Radices() == [4, 2]
  {
    ProdOfPair(4, 2);
    assert SPREAD.Radices() == [4, 2];
    hide Prod;
  }

  lemma ProdOfPair(a: nat, b: nat)
    ensures Prod([a, b]) == a * b && Prod([b]) == b && Prod([]) == 1
  {
    assert [a, b][..1] == [a] && [a][..0] == [] && [b][..0] == [];
    assert Prod([]) == 1;
    assert Prod([a]) == a;
  }

  /** Dimension 0 is the last digit before, with stride 1, and the first afterwards, with stride 2. */
  lemma CopiesStride()
    ensures COPIES_FIRST.Valid() && SPREAD.Valid() && !StrideMatches(COPIES_FIRST, SPREAD, 0)
  {
    var src, dst := COPIES_FIRST, SPREAD;
    CopiesValid();
    SpreadValid();
    assert src.order[1..] == [0];
    assert IndexOf(src.order, 0) == 1 && IndexOf(dst.order, 0) == 0 && Splits(src, dst, 0) == 2;
    hide *;
    StrideAt(src, 0, 1);
    StrideAt(dst, 0, 0);
    ProdOfPair(4, 2);
    assert [4, 2][2..] == [] && [4, 2][1..] == [2];
    StridesDiffer(src, dst, 0);
  }

  lemma StridesDiffer(src: Mesh, dst: Mesh, o: int)
    requires src.Valid() && dst.Valid() && o in src.order && o in dst.order && src.Dim(o) >= 1
    requires LoopSize(src, o) != LoopSize(dst, o) * Splits(src, dst, o)
    ensures !StrideMatches(src, dst, o)
  {
    hide LoopSize, Splits, Mesh.Valid;
  }

  lemma StrideAt(m: Mesh, d: int, p: nat)
    requires m.Valid() && d in m.order && p < |m.order| && IndexOf(m.order, d) == p
    ensures LoopSize(m, d) == Prod(m.Radices()[p + 1..])
  {
  }
}
