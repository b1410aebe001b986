/**
 The local split that replaces a scatter: which slice of its own block each device keeps.

 Merging the duplicate digit into a split dimension refines the blocks of that dimension. A device
 picks the slice that its new coordinate modulo the split number names, which is its new block
 exactly when the duplicate digit is the less significant of the two.
 */
module LocalScatter {
  import opened Collections
  import opened MixedRadix
  import opened DeviceMesh
  import opened MeshBuilding
  import opened DigitMerging

  /** A run of indices along one tensor dimension. */
  datatype Slice = Slice(start: nat, len: nat)

  /** Block `i` of `parts` equal blocks of a dimension of length `len`. */
  function Block(len: nat, parts: nat, i: nat): Slice
    requires parts >= 1
  {
    Slice(i * (len / parts), len / parts)
  }

  /** What the split operator keeps of a slice: chunk `index` of `splits`. */
  function Chunk(b: Slice, splits: nat, index: nat): Slice
    requires splits >= 1
  {
    Slice(b.start + index * (b.len / splits), b.len / splits)
  }

  /** The dimensions that the source and the destination split differently. */
  function SplitKeys(dst: Mesh, src: Mesh, order: seq<int>): seq<int> {
    if order == [] then [] else
      var o := order[|order| - 1];
      SplitKeys(dst, src, order[..|order| - 1]) + (if o >= 0 && dst.Dim(o) != src.Dim(o) then [o] else [])
  }

  /** The chunk index the code computes really selects the device's destination block. */
  ghost predicate KeepsItsBlock(src: Mesh, dst: Mesh, k: int, x: nat, len: nat)
    requires src.Valid() && dst.Valid() && src.Dim(k) >= 1 && dst.Dim(k) >= 1 && dst.Dim(k) / src.Dim(k) >= 1
  {
    var splits := dst.Dim(k) / src.Dim(k);
    Chunk(Block(len, src.Dim(k), PlaceAlong(src, k, x)), splits, PlaceAlong(dst, k, x) % splits)
    == Block(len, dst.Dim(k), PlaceAlong(dst, k, x))
  }

  ghost predicate Scattered(m: Mesh, k: int) {
    m.Valid() && k >= 0 && DUPLICATE in m.order && Mergeable(m.order, DUPLICATE, k)
  }

  lemma ScatteredDims(m: Mesh, k: int)
    requires Scattered(m, k)
    ensures Merged(m, DUPLICATE, k).Valid() && Merged(m, DUPLICATE, k).deviceNum == m.deviceNum
    ensures k in Merged(m, DUPLICATE, k).order
    ensures m.Dim(k) >= 1 && m.states[DUPLICATE] > 1
    ensures Merged(m, DUPLICATE, k).Dim(k) == m.Dim(k) * m.states[DUPLICATE]
    ensures Merged(m, DUPLICATE, k).Dim(k) / m.Dim(k) == m.states[DUPLICATE]
    ensures forall d | d >= 0 && d != k :: Merged(m, DUPLICATE, k).Dim(d) == m.Dim(d)
  {
    hide Prod, Pick, MergedOrder, Mergeable, IndexOf, MergedRadices;
    MergeKeepsMesh(m, DUPLICATE, k);
    assert k in Merged(m, DUPLICATE, k).order by { MergedOrderIsOrder(m, DUPLICATE, k); }
    assert m.states[DUPLICATE] > 1 by {
      var i := IndexOf(m.order, DUPLICATE);
      assert m.states[m.order[i]] > 1;
    }
    MergedDims(m, k);
    QuotientOfDims(m.Dim(k), m.states[DUPLICATE]);
  }

  lemma QuotientOfDims(a: nat, r: nat)
    requires a >= 1
    ensures (a * r) / a == r
  {
    MulComm(a, r);
    DivModOf(r, a, 0);
  }

  lemma MergedDims(m: Mesh, k: int)
    requires Scattered(m, k) && m.states[DUPLICATE] > 1
    ensures m.Dim(k) >= 1
    ensures Merged(m, DUPLICATE, k).Dim(k) == m.Dim(k) * m.states[DUPLICATE]
    ensures forall d | d >= 0 && d != k :: Merged(m, DUPLICATE, k).Dim(d) == m.Dim(d)
  {
    hide Prod, Pick, MergedOrder, Mergeable, IndexOf, BuiltOrder;
    MulMono(1, m.Dim(k), m.states[DUPLICATE]);
  }

  /** The only dimension the local split touches is the scattered one. */
  lemma ScatterKeys(m: Mesh, k: int)
    requires Scattered(m, k)
    ensures SplitKeys(Merged(m, DUPLICATE, k), m, Merged(m, DUPLICATE, k).order) == [k]
  {
    hide Prod, Pick, Merged;
    ScatteredDims(m, k);
    var m' := Merged(m, DUPLICATE, k);
    assert m'.Dim(k) != m.Dim(k) by {
      MulMono(2, m.states[DUPLICATE], m.Dim(k));
      MulComm(m.Dim(k), m.states[DUPLICATE]);
    }
    OneKey(m', m, m'.order, k);
  }

  lemma {:induction false} OneKey(dst: Mesh, src: Mesh, order: seq<int>, k: int)
    requires k >= 0 && dst.Dim(k) != src.Dim(k) && NoDup(order)
    requires forall d | d >= 0 && d != k :: dst.Dim(d) == src.Dim(d)
    ensures SplitKeys(dst, src, order) == if k in order then [k] else []
  {
    if order != [] {
      var n := |order| - 1;
      OneKey(dst, src, order[..n], k);
      assert order == order[..n] + [order[n]];
      assert order[n] == k ==> k !in order[..n] by {
        forall i | 0 <= i < n ensures order[..n][i] != order[n] { }
      }
    }
  }

  /** The duplicate digit directly follows the scattered dimension, or that dimension is not split yet. */
  predicate DuplicateFollows(m: Mesh, k: int) {
    k !in m.order || (DUPLICATE in m.order && IndexOf(m.order, k) < IndexOf(m.order, DUPLICATE))
  }

  /** Chunk arithmetic when the block number is `c * r + e`. */
  lemma ChunkOfBlock(len: nat, a: nat, r: nat, c: nat, e: nat)
    requires a >= 1 && r >= 1 && e < r && a * r >= 1 && len % (a * r) == 0
    ensures (c * r + e) % r == e
    ensures Chunk(Block(len, a, c), r, e) == Block(len, a * r, c * r + e)
  {
    DivModOf(c, r, e);
    var q := len / (a * r);
    assert len == (a * r) * q;
    assert len / a == r * q && len / a / r == q by {
      MulAssoc(a, r, q);
      MulComm(a, r * q);
      DivModOf(r * q, a, 0);
      MulComm(r, q);
      DivModOf(q, r, 0);
    }
    MulAssoc(c, r, q);
    MulDist(c * r, e, q);
  }

  lemma KeepsWhenFollowing(m: Mesh, k: int, x: nat, len: nat)
    requires Scattered(m, k) && DuplicateFollows(m, k)
    requires m.Dim(k) * m.states[DUPLICATE] >= 1 && len % (m.Dim(k) * m.states[DUPLICATE]) == 0
    requires var m' := Merged(m, DUPLICATE, k);
             m'.Valid() && m.Dim(k) >= 1 && m'.Dim(k) == m.Dim(k) * m.states[DUPLICATE]
             && m.states[DUPLICATE] > 1 && m'.Dim(k) / m.Dim(k) == m.states[DUPLICATE] && k in m'.order
    ensures KeepsItsBlock(m, Merged(m, DUPLICATE, k), k, x, len)
  {
    hide Prod, Pick, Merged, Digits, IndexOf, Mergeable;
    MergeCoords(m, DUPLICATE, k, x);
    ChunkOfBlock(len, m.Dim(k), m.states[DUPLICATE], PlaceAlong(m, k, x), m.Coord(DUPLICATE, x));
    hide Chunk, Block;
  }

  /** When the duplicate digit comes first, the device with coordinate 1 keeps the wrong chunk. */
  lemma ChunkOfWrongBlock(len: nat, a: nat, r: nat)
    requires a > 1 && r > 1 && a * r >= 1 && len > 0 && len % (a * r) == 0
    ensures 1 % r == 1
    ensures Chunk(Block(len, a, 1), r, 1) != Block(len, a * r, 1)
  {
    var q := len / (a * r);
    assert len == (a * r) * q;
    assert len / a == r * q && len / a / r == q by {
      MulAssoc(a, r, q);
      MulComm(a, r * q);
      DivModOf(r * q, a, 0);
      MulComm(r, q);
      DivModOf(q, r, 0);
    }
    assert q != 0;
    MulMono(1, r, q);
    DivModOf(0, r, 1);
  }

  /** The device that has coordinate 1 along `k` and 0 along every other dimension. */
  lemma OneAlong(m: Mesh, k: int) returns (x: nat)
    requires m.Valid() && k in m.order
    ensures x < m.deviceNum && forall d <- m.order :: m.Coord(d, x) == if d == k then 1 else 0
  {
    hide Prod, Digits, Dot, Weights, Pick;
    var c: map<int, nat> := map d | d in m.order :: if d == k then 1 else 0;
    forall i | 0 <= i < |m.order| ensures m.order[i] in c && c[m.order[i]] < m.states[m.order[i]] {
      assert m.order[i] in m.order && m.states[m.order[i]] > 1;
    }
    CoordsFromDevice(m, c);
    x := DeviceOf(m, c);
  }

  lemma FailsWhenPreceding(m: Mesh, k: int, len: nat) returns (x: nat)
    requires Scattered(m, k) && !DuplicateFollows(m, k)
    requires m.Dim(k) * m.states[DUPLICATE] >= 1 && len > 0 && len % (m.Dim(k) * m.states[DUPLICATE]) == 0
    requires var m' := Merged(m, DUPLICATE, k);
             m'.Valid() && m.Dim(k) >= 1 && m'.Dim(k) == m.Dim(k) * m.states[DUPLICATE]
             && m.states[DUPLICATE] > 1 && m'.Dim(k) / m.Dim(k) == m.states[DUPLICATE] && k in m'.order
    ensures x < m.deviceNum && !KeepsItsBlock(m, Merged(m, DUPLICATE, k), k, x, len)
  {
    hide Prod, Pick, Merged, Digits, IndexOf, Mergeable;
    x := OneAlong(m, k);
    MergeCoords(m, DUPLICATE, k, x);
    assert MergedCoord(m, DUPLICATE, k, x) == 1;
    assert m.Dim(k) > 1 by {
      var i := IndexOf(m.order, k);
      assert m.states[m.order[i]] > 1;
    }
    ChunkOfWrongBlock(len, m.Dim(k), m.states[DUPLICATE]);
    hide Chunk, Block;
  }

  /**
   Local scatter, exactly: for every evenly divisible length, the chunk each device cuts
   from its own block is its destination block if and only if the duplicate digit directly
   follows the scattered dimension or that dimension was not split before.
   */
  lemma ScatterRightIff(m: Mesh, k: int, len: nat)
    requires Scattered(m, k)
    requires m.Dim(k) * m.states[DUPLICATE] >= 1 && len > 0 && len % (m.Dim(k) * m.states[DUPLICATE]) == 0
    ensures var m' := Merged(m, DUPLICATE, k);
            m'.Valid() && m.Dim(k) >= 1 && m'.Dim(k) >= 1 && m'.Dim(k) / m.Dim(k) >= 1
            && ((forall x: nat | x < m.deviceNum :: KeepsItsBlock(m, m', k, x, len)) <==> DuplicateFollows(m, k))
  {
    hide Prod, Pick, Merged, Digits, IndexOf, Mergeable, KeepsItsBlock;
    ScatteredDims(m, k);
    if DuplicateFollows(m, k) {
      forall x: nat | x < m.deviceNum ensures KeepsItsBlock(m, Merged(m, DUPLICATE, k), k, x, len) {
        KeepsWhenFollowing(m, k, x, len);
      }
    } else {
      var x := FailsWhenPreceding(m, k, len);
    }
  }

  /** Four devices, the duplicate digit before dimension 0: scattering into that one goes wrong. */
  const DUPLICATE_FIRST: Mesh := Mesh(4, map[PARTIAL := 1, DUPLICATE := 2, 0 := 2], [DUPLICATE, 0], false)

  lemma DuplicateFirstMisses() returns (x: nat)
    ensures Scattered(DUPLICATE_FIRST, 0) && !DuplicateFollows(DUPLICATE_FIRST, 0)
    ensures var m' := Merged(DUPLICATE_FIRST, DUPLICATE, 0);
            && m'.Valid() && m'.Dim(0) == 4
            && x < 4 && !KeepsItsBlock(DUPLICATE_FIRST, m', 0, x, 4)
  {
    var m := DUPLICATE_FIRST;
    DuplicateFirst(m);
    assert m.Dim(0) == 2 && m.states[DUPLICATE] == 2;
    hide *;
    ScatteredDims(m, 0);
    x := FailsWhenPreceding(m, 0, 4);
  }

  lemma DuplicateFirst(m: Mesh)
    requires m == DUPLICATE_FIRST
    ensures Scattered(m, 0) && !DuplicateFollows(m, 0)
  {
    assert m.Radices() == [2, 2];
    assert [2, 2][..1] == [2] && [2][..0] == [];
    assert Prod([]) == 1;
    assert Prod([2]) == 2;
    assert Prod([2, 2]) == 4;
    assert m.order[1..] == [0];
  }
}
