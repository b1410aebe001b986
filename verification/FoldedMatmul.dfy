/**
 Multiplying a batch of matrices by one matrix or vector: the batch is folded into the rows of
 a single product.
 */
module FoldedMatmul {
  import opened Collections
  import opened MixedRadix

  /** A contiguous array in row-major order; kernels are exact over the reals. */
  datatype Tensor = Tensor(shape: seq<nat>, data: seq<real>) {
    predicate Valid() {
      |data| == Prod(shape)
    }
  }

  function El(t: Tensor, idx: seq<nat>): real
    requires t.Valid() && InBase(t.shape, idx)
  {
    RankInRange(t.shape, idx);
    t.data[Rank(t.shape, idx)]
  }

  lemma RankInRange(shape: seq<nat>, idx: seq<nat>)
    requires InBase(shape, idx)
    ensures AllPos(shape) && Rank(shape, idx) < Prod(shape) && Digits(shape, Rank(shape, idx)) == idx
  {
    forall i | 0 <= i < |shape| ensures shape[i] >= 1 { assert idx[i] < shape[i]; }
    DigitsOfRank(shape, idx);
  }

  lemma {:induction false} PositiveSizes(shape: seq<nat>)
    requires Prod(shape) >= 1
    ensures AllPos(shape)
  {
    if shape != [] {
      var k := |shape| - 1;
      assert Prod(shape[..k]) >= 1 && shape[k] >= 1;
      PositiveSizes(shape[..k]);
    }
  }

  // ---------- matrices inside an array ----------

  function Batch(t: Tensor): seq<nat>
    requires |t.shape| >= 2
  {
    t.shape[..|t.shape| - 2]
  }

  /** Rows and columns of the matrices of `t`, read transposed or not. */
  function Rows(t: Tensor, trans: bool): nat
    requires |t.shape| >= 2
  {
    t.shape[|t.shape| - if trans then 1 else 2]
  }

  function Cols(t: Tensor, trans: bool): nat
    requires |t.shape| >= 2
  {
    t.shape[|t.shape| - if trans then 2 else 1]
  }

  /** Element (i, l) of matrix `b` of `t`, read transposed or not. */
  function Entry(t: Tensor, trans: bool, b: seq<nat>, i: nat, l: nat): real
    requires t.Valid() && |t.shape| >= 2 && InBase(Batch(t), b) && i < Rows(t, trans) && l < Cols(t, trans)
  {
    EntryInBase(t, trans, b, i, l);
    El(t, b + if trans then [l, i] else [i, l])
  }

  lemma EntryInBase(t: Tensor, trans: bool, b: seq<nat>, i: nat, l: nat)
    requires |t.shape| >= 2 && InBase(Batch(t), b) && i < Rows(t, trans) && l < Cols(t, trans)
    ensures InBase(t.shape, b + if trans then [l, i] else [i, l])
  {
  }

  /**
   The reference: the inner product of a row of matrix `b` of `x` and a column of matrix `c` of `y`,
   over the first `n` terms.
   */
  function Inner(x: Tensor, tx: bool, b: seq<nat>, i: nat, y: Tensor, ty: bool, c: seq<nat>, j: nat, n: nat): real
    requires x.Valid() && |x.shape| >= 2 && InBase(Batch(x), b) && i < Rows(x, tx) && n <= Cols(x, tx)
    requires y.Valid() && |y.shape| >= 2 && InBase(Batch(y), c) && j < Cols(y, ty) && n <= Rows(y, ty)
  {
    if n == 0 then 0.0 else
      Inner(x, tx, b, i, y, ty, c, j, n - 1) + Entry(x, tx, b, i, n - 1) * Entry(y, ty, c, n - 1, j)
  }

  /** The same with a vector on the right. */
  function InnerVec(x: Tensor, tx: bool, b: seq<nat>, i: nat, y: Tensor, n: nat): real
    requires x.Valid() && |x.shape| >= 2 && InBase(Batch(x), b) && i < Rows(x, tx) && n <= Cols(x, tx)
    requires y.Valid() && |y.shape| == 1 && n <= y.shape[0]
  {
    if n == 0 then 0.0 else InnerVec(x, tx, b, i, y, n - 1) + Entry(x, tx, b, i, n - 1) * El(y, [n - 1])
  }

  // ---------- reshape, swapping the last two dimensions, the kernels ----------

  function Reshape(t: Tensor, shape: seq<nat>): Tensor
    requires t.Valid() && Prod(shape) == Prod(t.shape)
  {
    Tensor(shape, t.data)
  }

  function SwapTail<T>(s: seq<T>): (r: seq<T>)
    requires |s| >= 2
    ensures |r| == |s| && r[|s| - 1] == s[|s| - 2] && r[|s| - 2] == s[|s| - 1] && r[..|s| - 2] == s[..|s| - 2]
  {
    s[..|s| - 2] + [s[|s| - 1], s[|s| - 2]]
  }

  lemma SwapTailTwice<T>(s: seq<T>)
    requires |s| >= 2
    ensures SwapTail(SwapTail(s)) == s
  {
  }

  lemma SwapTailInBase(shape: seq<nat>, idx: seq<nat>)
    requires |shape| == |idx| >= 2
    ensures InBase(SwapTail(shape), SwapTail(idx)) <==> InBase(shape, idx)
  {
    var n := |shape|;
    forall i | 0 <= i < n - 2 ensures SwapTail(shape)[i] == shape[i] && SwapTail(idx)[i] == idx[i] {
      assert SwapTail(shape)[..n - 2][i] == shape[..n - 2][i] && SwapTail(idx)[..n - 2][i] == idx[..n - 2][i];
    }
    if InBase(SwapTail(shape), SwapTail(idx)) {
      assert SwapTail(idx)[n - 1] < SwapTail(shape)[n - 1] && SwapTail(idx)[n - 2] < SwapTail(shape)[n - 2];
      forall i | 0 <= i < n ensures idx[i] < shape[i] {
        if i < n - 2 { assert SwapTail(idx)[i] < SwapTail(shape)[i]; }
      }
    }
  }

  /** A contiguous copy of the array seen with its last two dimensions exchanged. */
  function Swapped(t: Tensor): (r: Tensor)
    requires t.Valid() && |t.shape| >= 2
    ensures r.Valid() && r.shape == SwapTail(t.shape)
  {
    var shape := SwapTail(t.shape);
    if Prod(shape) == 0 then Tensor(shape, []) else
      PositiveSizes(shape);
      Tensor(shape, seq(Prod(shape), q requires 0 <= q < Prod(shape) =>
        SwapTailTwice(t.shape);
        SwapTailInBase(shape, Digits(shape, q));
        El(t, SwapTail(Digits(shape, q)))))
  }

  lemma SwappedAt(t: Tensor, idx: seq<nat>)
    requires t.Valid() && |t.shape| >= 2 && InBase(SwapTail(t.shape), idx)
    ensures InBase(t.shape, SwapTail(idx)) && El(Swapped(t), idx) == El(t, SwapTail(idx))
  {
    SwapTailTwice(t.shape);
    SwapTailInBase(SwapTail(t.shape), idx);
    RankInRange(SwapTail(t.shape), idx);
  }

  /** The matrix kernel without a left transpose; `None` when the inner sizes differ. */
  function MatMul(x: Tensor, y: Tensor, trans: bool): (r: Option<Tensor>)
    requires x.Valid() && y.Valid() && |x.shape| == 2 && |y.shape| == 2
    ensures r.Some? <==> Cols(x, false) == Rows(y, trans)
    ensures r.Some? ==> r.value.Valid() && r.value.shape == [Rows(x, false), Cols(y, trans)]
  {
    var n, p := Rows(x, false), Cols(y, trans);
    if Cols(x, false) != Rows(y, trans) then None else
      ProdOfTwo(n, p);
      Some(Tensor([n, p], seq(n * p, q requires 0 <= q < n * p =>
        CellOf(q, n, p);
        Inner(x, false, [], q / p, y, trans, [], q % p, Cols(x, false)))))
  }

  function MatVec(x: Tensor, y: Tensor): (r: Option<Tensor>)
    requires x.Valid() && y.Valid() && |x.shape| == 2 && |y.shape| == 1
    ensures r.Some? <==> Cols(x, false) == y.shape[0]
    ensures r.Some? ==> r.value.Valid() && r.value.shape == [Rows(x, false)]
  {
    if Cols(x, false) != y.shape[0] then None else
      ProdOfOne(Rows(x, false));
      Some(Tensor([Rows(x, false)], seq(Rows(x, false), i requires 0 <= i < Rows(x, false) =>
        InnerVec(x, false, [], i, y, y.shape[0]))))
  }

  lemma ProdOfOne(a: nat)
    ensures Prod([a]) == a
  {
    assert [a][..0] == [];
  }

  lemma ProdOfTwo(a: nat, b: nat)
    ensures Prod([a, b]) == a * b
  {
    assert [a, b][..1] == [a];
    ProdOfOne(a);
  }

  lemma CellOf(q: nat, n: nat, p: nat)
    requires q < n * p
    ensures p >= 1 && q / p < n && q % p < p
  {
    assert p >= 1;
    MulComm(n, p);
    DivModSmall(q, p, n);
  }

  lemma RankOfTwo(a: nat, b: nat, i: nat, j: nat)
    ensures Rank([a, b], [i, j]) == i * b + j
  {
    assert [a, b][..1] == [a] && [i, j][..1] == [i] && [a][..0] == [] && [i][..0] == [];
    assert Rank([a], [i]) == i;
  }

  lemma RankOfOne(a: nat, i: nat)
    ensures Rank([a], [i]) == i
  {
    assert [a][..0] == [] && [i][..0] == [];
  }

  lemma MatMulAt(x: Tensor, y: Tensor, trans: bool, i: nat, j: nat)
    requires x.Valid() && y.Valid() && |x.shape| == 2 && |y.shape| == 2 && Cols(x, false) == Rows(y, trans)
    requires i < Rows(x, false) && j < Cols(y, trans)
    ensures InBase(MatMul(x, y, trans).value.shape, [i, j])
    ensures El(MatMul(x, y, trans).value, [i, j]) == Inner(x, false, [], i, y, trans, [], j, Cols(x, false))
  {
    var n, p := Rows(x, false), Cols(y, trans);
    RankOfTwo(n, p, i, j);
    RankInRange([n, p], [i, j]);
    ProdOfTwo(n, p);
    DivModOf(i, p, j);
    hide Prod, Rank, Inner;
  }

  lemma MatVecAt(x: Tensor, y: Tensor, i: nat)
    requires x.Valid() && y.Valid() && |x.shape| == 2 && |y.shape| == 1 && Cols(x, false) == y.shape[0]
    requires i < Rows(x, false)
    ensures InBase(MatVec(x, y).value.shape, [i])
    ensures El(MatVec(x, y).value, [i]) == InnerVec(x, false, [], i, y, y.shape[0])
  {
    RankOfOne(Rows(x, false), i);
    RankInRange([Rows(x, false)], [i]);
    hide Prod, Rank, InnerVec;
  }

  // ---------- folding ----------

  /** Folds all but the last dimension into rows. */
  function Folded(t: Tensor): (r: Tensor)
    requires t.Valid() && |t.shape| >= 1
    ensures r.Valid() && |r.shape| == 2 && r.shape[1] == t.shape[|t.shape| - 1]
  {
    var n := |t.shape| - 1;
    ProdOfTwo(Prod(t.shape[..n]), t.shape[n]);
    Reshape(t, [Prod(t.shape[..n]), t.shape[n]])
  }

  lemma FoldedAt(t: Tensor, outer: seq<nat>, k: nat, pre: seq<nat>, l: nat)
    requires t.Valid() && t.shape == outer + [k] && InBase(outer, pre) && l < k
    ensures InBase(t.shape, pre + [l]) && Folded(t).shape == [Prod(outer), k] && Rank(outer, pre) < Prod(outer)
    ensures Entry(Folded(t), false, [], Rank(outer, pre), l) == El(t, pre + [l])
  {
    var n := |outer|;
    assert t.shape[..n] == outer && (pre + [l])[..n] == pre;
    RankInRange(outer, pre);
    RankOfTwo(Prod(outer), k, Rank(outer, pre), l);
    assert [] + [Rank(outer, pre), l] == [Rank(outer, pre), l];
  }

  /** Undoing the fold of a product's rows: element `pre + [j]` is cell (rank of `pre`, j). */
  lemma UnfoldedAt(r: Tensor, outer: seq<nat>, p: nat, pre: seq<nat>, j: nat)
    requires r.Valid() && r.shape == [Prod(outer), p] && InBase(outer, pre) && j < p
    ensures Prod(outer + [p]) == Prod(r.shape) && Rank(outer, pre) < Prod(outer)
    ensures InBase(outer + [p], pre + [j])
    ensures El(Reshape(r, outer + [p]), pre + [j]) == El(r, [Rank(outer, pre), j])
  {
    RankInRange(outer, pre);
    ReshapedShape(outer, p);
    RankOfTwo(Prod(outer), p, Rank(outer, pre), j);
    RankSnoc(outer, p, pre, j);
    hide Prod, Rank;
  }

  lemma RankSnoc(outer: seq<nat>, p: nat, pre: seq<nat>, j: nat)
    requires |pre| == |outer|
    ensures Rank(outer + [p], pre + [j]) == Rank(outer, pre) * p + j
  {
    assert (outer + [p])[..|outer|] == outer && (pre + [j])[..|outer|] == pre;
  }

  lemma ReshapedShape(outer: seq<nat>, p: nat)
    ensures Prod(outer + [p]) == Prod([Prod(outer), p])
  {
    assert (outer + [p])[..|outer|] == outer;
    ProdOfTwo(Prod(outer), p);
  }

  /** The batched operand after the optional transpose of its last two dimensions. */
  function Oriented(x: Tensor, trans: bool): (r: Tensor)
    requires x.Valid() && |x.shape| >= 2
    ensures r.Valid() && r.shape == if trans then SwapTail(x.shape) else x.shape
  {
    if trans then Swapped(x) else x
  }

  lemma OrientedAt(x: Tensor, trans: bool, b: seq<nat>, i: nat, l: nat)
    requires x.Valid() && |x.shape| >= 2 && InBase(Batch(x), b) && i < Rows(x, trans) && l < Cols(x, trans)
    ensures InBase(Oriented(x, trans).shape, b + [i, l])
    ensures El(Oriented(x, trans), b + [i, l]) == Entry(x, trans, b, i, l)
  {
    EntryInBase(x, trans, b, i, l);
    if trans {
      SwapTailInBase(x.shape, b + [l, i]);
      assert SwapTail(b + [l, i]) == b + [i, l] && SwapTail(b + [i, l]) == b + [l, i];
      SwappedAt(x, b + [i, l]);
    }
  }

  /** All but the last dimension of the oriented operand: the batch and the rows. */
  function Outer(x: Tensor, trans: bool): seq<nat>
    requires |x.shape| >= 2
  {
    Batch(x) + [Rows(x, trans)]
  }

  lemma OrientedShape(x: Tensor, trans: bool)
    requires x.Valid() && |x.shape| >= 2
    ensures Oriented(x, trans).shape == Outer(x, trans) + [Cols(x, trans)]
  {
    assert x.shape == Batch(x) + [x.shape[|x.shape| - 2], x.shape[|x.shape| - 1]];
  }

  /** The folding branch before the final transpose; the flags are those after the operands are exchanged. */
  function FoldedProduct(x: Tensor, y: Tensor, tx: bool, ty: bool): (r: Option<Tensor>)
    requires x.Valid() && y.Valid() && |x.shape| >= 2 && 1 <= |y.shape| <= 2
    ensures r.Some? <==> Cols(x, tx) == if |y.shape| == 2 then Rows(y, ty) else y.shape[0]
    ensures r.Some? ==> r.value.Valid()
    ensures r.Some? ==> r.value.shape == if |y.shape| == 2 then Outer(x, tx) + [Cols(y, ty)] else Outer(x, tx)
  {
    OrientedShape(x, tx);
    var folded := Folded(Oriented(x, tx));
    assert Oriented(x, tx).shape[..|x.shape| - 1] == Outer(x, tx);
    if |y.shape| == 2 then
      var product := MatMul(folded, y, ty);
      if product.None? then None else
        ReshapedShape(Outer(x, tx), Cols(y, ty));
        Some(Reshape(product.value, Outer(x, tx) + [Cols(y, ty)]))
    else
      var product := MatVec(folded, y);
      if product.None? then None else
        ProdOfOne(Prod(Outer(x, tx)));
        Some(Reshape(product.value, Outer(x, tx)))
  }

  /** A row of the folded operand is the row of its batch: the inner products agree. */
  lemma FoldedInner(x: Tensor, tx: bool, b: seq<nat>, i: nat, y: Tensor, ty: bool, j: nat, n: nat)
    requires x.Valid() && |x.shape| >= 2 && InBase(Batch(x), b) && i < Rows(x, tx) && n <= Cols(x, tx)
    requires y.Valid() && |y.shape| == 2 && j < Cols(y, ty) && n <= Rows(y, ty)
    ensures Oriented(x, tx).shape == Outer(x, tx) + [Cols(x, tx)]
    ensures InBase(Outer(x, tx), b + [i]) && Rank(Outer(x, tx), b + [i]) < Prod(Outer(x, tx))
    ensures Folded(Oriented(x, tx)).shape == [Prod(Outer(x, tx)), Cols(x, tx)]
    ensures Inner(Folded(Oriented(x, tx)), false, [], Rank(Outer(x, tx), b + [i]), y, ty, [], j, n)
         == Inner(x, tx, b, i, y, ty, [], j, n)
  {
    FoldedRow(x, tx, b, i);
    hide Prod, Rank, Inner, Entry, Folded, Oriented, El;
    var t, f := Folded(Oriented(x, tx)), Rank(Outer(x, tx), b + [i]);
    forall l: nat | l < n ensures Entry(t, false, [], f, l) == Entry(x, tx, b, i, l) {
      FoldedEntry(x, tx, b, i, l);
    }
    InnerSame(t, false, [], f, x, tx, b, i, y, ty, j, n);
  }

  /** Equal rows have equal inner products. */
  lemma {:induction false} InnerSame(t: Tensor, tt: bool, a: seq<nat>, f: nat, x: Tensor, tx: bool, b: seq<nat>, i: nat,
                                     y: Tensor, ty: bool, j: nat, n: nat)
    requires t.Valid() && |t.shape| >= 2 && InBase(Batch(t), a) && f < Rows(t, tt) && n <= Cols(t, tt)
    requires x.Valid() && |x.shape| >= 2 && InBase(Batch(x), b) && i < Rows(x, tx) && n <= Cols(x, tx)
    requires y.Valid() && |y.shape| == 2 && j < Cols(y, ty) && n <= Rows(y, ty)
    requires forall l: nat | l < n :: Entry(t, tt, a, f, l) == Entry(x, tx, b, i, l)
    ensures Inner(t, tt, a, f, y, ty, [], j, n) == Inner(x, tx, b, i, y, ty, [], j, n)
  {
    hide Prod, Entry, El;
    if n > 0 { InnerSame(t, tt, a, f, x, tx, b, i, y, ty, j, n - 1); }
  }

  lemma {:induction false} InnerVecSame(
    t: Tensor, tt: bool, a: seq<nat>, f: nat, x: Tensor, tx: bool, b: seq<nat>, i: nat, y: Tensor, n: nat)
    requires t.Valid() && |t.shape| >= 2 && InBase(Batch(t), a) && f < Rows(t, tt) && n <= Cols(t, tt)
    requires x.Valid() && |x.shape| >= 2 && InBase(Batch(x), b) && i < Rows(x, tx) && n <= Cols(x, tx)
    requires y.Valid() && |y.shape| == 1 && n <= y.shape[0]
    requires forall l: nat | l < n :: Entry(t, tt, a, f, l) == Entry(x, tx, b, i, l)
    ensures InnerVec(t, tt, a, f, y, n) == InnerVec(x, tx, b, i, y, n)
  {
    hide Prod, Entry, El;
    if n > 0 { InnerVecSame(t, tt, a, f, x, tx, b, i, y, n - 1); }
  }

  lemma FoldedRow(x: Tensor, tx: bool, b: seq<nat>, i: nat)
    requires x.Valid() && |x.shape| >= 2 && InBase(Batch(x), b) && i < Rows(x, tx)
    ensures Oriented(x, tx).shape == Outer(x, tx) + [Cols(x, tx)]
    ensures InBase(Outer(x, tx), b + [i]) && Rank(Outer(x, tx), b + [i]) < Prod(Outer(x, tx))
    ensures Folded(Oriented(x, tx)).shape == [Prod(Outer(x, tx)), Cols(x, tx)]
  {
    OrientedShape(x, tx);
    assert Oriented(x, tx).shape[..|x.shape| - 1] == Outer(x, tx);
    RankInRange(Outer(x, tx), b + [i]);
  }

  lemma FoldedEntry(x: Tensor, tx: bool, b: seq<nat>, i: nat, l: nat)
    requires x.Valid() && |x.shape| >= 2 && InBase(Batch(x), b) && i < Rows(x, tx) && l < Cols(x, tx)
    ensures Folded(Oriented(x, tx)).shape == [Prod(Outer(x, tx)), Cols(x, tx)]
    ensures InBase(Outer(x, tx), b + [i]) && Rank(Outer(x, tx), b + [i]) < Prod(Outer(x, tx))
    ensures Entry(Folded(Oriented(x, tx)), false, [], Rank(Outer(x, tx), b + [i]), l) == Entry(x, tx, b, i, l)
  {
    FoldedRow(x, tx, b, i);
    FoldedAt(Oriented(x, tx), Outer(x, tx), Cols(x, tx), b + [i], l);
    OrientedAt(x, tx, b, i, l);
    assert b + [i] + [l] == b + [i, l];
  }

  lemma FoldedInnerVec(x: Tensor, tx: bool, b: seq<nat>, i: nat, y: Tensor, n: nat)
    requires x.Valid() && |x.shape| >= 2 && InBase(Batch(x), b) && i < Rows(x, tx) && n <= Cols(x, tx)
    requires y.Valid() && |y.shape| == 1 && n <= y.shape[0]
    ensures Folded(Oriented(x, tx)).shape == [Prod(Outer(x, tx)), Cols(x, tx)]
    ensures InBase(Outer(x, tx), b + [i]) && Rank(Outer(x, tx), b + [i]) < Prod(Outer(x, tx))
    ensures InnerVec(Folded(Oriented(x, tx)), false, [], Rank(Outer(x, tx), b + [i]), y, n)
         == InnerVec(x, tx, b, i, y, n)
  {
    FoldedRow(x, tx, b, i);
    hide Prod, Rank, InnerVec, Entry, Folded, Oriented, El;
    var t, f := Folded(Oriented(x, tx)), Rank(Outer(x, tx), b + [i]);
    forall l: nat | l < n ensures Entry(t, false, [], f, l) == Entry(x, tx, b, i, l) {
      FoldedEntry(x, tx, b, i, l);
    }
    InnerVecSame(t, false, [], f, x, tx, b, i, y, n);
  }

  lemma FoldedProductIs(x: Tensor, y: Tensor, tx: bool, ty: bool)
    requires x.Valid() && y.Valid() && |x.shape| >= 2 && |y.shape| == 2 && FoldedProduct(x, y, tx, ty).Some?
    ensures var t, outer := Folded(Oriented(x, tx)), Outer(x, tx);
            && MatMul(t, y, ty).Some? && MatMul(t, y, ty).value.shape == [Prod(outer), Cols(y, ty)]
            && Prod(outer + [Cols(y, ty)]) == Prod(MatMul(t, y, ty).value.shape)
            && FoldedProduct(x, y, tx, ty) == Some(Reshape(MatMul(t, y, ty).value, outer + [Cols(y, ty)]))
  {
    OrientedShape(x, tx);
    assert Oriented(x, tx).shape[..|x.shape| - 1] == Outer(x, tx);
    ReshapedShape(Outer(x, tx), Cols(y, ty));
    hide Prod, MatMul, Oriented;
  }

  /** Cell (i, j) of batch `b` of the folded product is the inner product of that batch. */
  lemma FoldedProductAt(x: Tensor, y: Tensor, tx: bool, ty: bool, b: seq<nat>, i: nat, j: nat)
    requires x.Valid() && y.Valid() && |x.shape| >= 2 && |y.shape| == 2 && FoldedProduct(x, y, tx, ty).Some?
    requires InBase(Batch(x), b) && i < Rows(x, tx) && j < Cols(y, ty)
    ensures InBase(FoldedProduct(x, y, tx, ty).value.shape, b + [i, j])
    ensures El(FoldedProduct(x, y, tx, ty).value, b + [i, j]) == Inner(x, tx, b, i, y, ty, [], j, Cols(x, tx))
  {
    FoldedInner(x, tx, b, i, y, ty, j, Cols(x, tx));
    FoldedProductIs(x, y, tx, ty);
    hide Prod, Rank, Inner, Digits, FoldedProduct, MatMul, El, Oriented, Folded, Reshape, Outer, Batch;
    ProductCell(Folded(Oriented(x, tx)), y, ty, Outer(x, tx), b + [i], j);
    TwoMore(b, i, j);
  }

  lemma TwoMore(b: seq<nat>, i: nat, j: nat)
    ensures b + [i] + [j] == b + [i, j]
  {
  }

  /** A cell of a product of folded rows, after unfolding them. */
  lemma ProductCell(t: Tensor, y: Tensor, ty: bool, outer: seq<nat>, pre: seq<nat>, j: nat)
    requires t.Valid() && y.Valid() && |y.shape| == 2 && |t.shape| == 2 && t.shape[0] == Prod(outer)
    requires MatMul(t, y, ty).Some? && MatMul(t, y, ty).value.shape == [Prod(outer), Cols(y, ty)]
    requires Prod(outer + [Cols(y, ty)]) == Prod(MatMul(t, y, ty).value.shape)
    requires Cols(t, false) == Rows(y, ty) && InBase(outer, pre) && Rank(outer, pre) < Prod(outer) && j < Cols(y, ty)
    ensures InBase(outer + [Cols(y, ty)], pre + [j])
    ensures El(Reshape(MatMul(t, y, ty).value, outer + [Cols(y, ty)]), pre + [j])
         == Inner(t, false, [], Rank(outer, pre), y, ty, [], j, Cols(t, false))
  {
    MatMulAt(t, y, ty, Rank(outer, pre), j);
    UnfoldedAt(MatMul(t, y, ty).value, outer, Cols(y, ty), pre, j);
    hide Prod, Rank, Inner, MatMul, El, Reshape;
  }

  lemma FoldedVectorAt(x: Tensor, y: Tensor, tx: bool, ty: bool, b: seq<nat>, i: nat)
    requires x.Valid() && y.Valid() && |x.shape| >= 2 && |y.shape| == 1 && FoldedProduct(x, y, tx, ty).Some?
    requires InBase(Batch(x), b) && i < Rows(x, tx)
    ensures InBase(FoldedProduct(x, y, tx, ty).value.shape, b + [i])
    ensures El(FoldedProduct(x, y, tx, ty).value, b + [i]) == InnerVec(x, tx, b, i, y, Cols(x, tx))
  {
    FoldedInnerVec(x, tx, b, i, y, Cols(x, tx));
    var f := Rank(Outer(x, tx), b + [i]);
    MatVecAt(Folded(Oriented(x, tx)), y, f);
    RankOfOne(Prod(Outer(x, tx)), f);
    hide Prod, Rank, InnerVec, Digits;
  }

  /** Reading a product transposed: rows of the transposed operands in the other order. */
  lemma {:induction false} InnerTransposed(
    x: Tensor, tx: bool, i: nat, y: Tensor, ty: bool, c: seq<nat>, j: nat, n: nat)
    requires x.Valid() && |x.shape| == 2 && i < Rows(x, tx) && n <= Cols(x, tx)
    requires y.Valid() && |y.shape| >= 2 && InBase(Batch(y), c) && j < Cols(y, ty) && n <= Rows(y, ty)
    ensures Inner(y, !ty, c, j, x, !tx, [], i, n) == Inner(x, tx, [], i, y, ty, c, j, n)
  {
    if n > 0 { InnerTransposed(x, tx, i, y, ty, c, j, n - 1); }
  }

  lemma {:induction false} InnerVecTransposed(x: Tensor, y: Tensor, ty: bool, c: seq<nat>, j: nat, n: nat)
    requires x.Valid() && |x.shape| == 1 && n <= x.shape[0]
    requires y.Valid() && |y.shape| >= 2 && InBase(Batch(y), c) && j < Cols(y, ty) && n <= Rows(y, ty)
    ensures InnerVec(y, !ty, c, j, x, n) == VecInner(x, y, ty, c, j, n)
  {
    if n > 0 { InnerVecTransposed(x, y, ty, c, j, n - 1); }
  }

  /** The reference with a vector on the left. */
  function VecInner(x: Tensor, y: Tensor, ty: bool, c: seq<nat>, j: nat, n: nat): real
    requires x.Valid() && |x.shape| == 1 && n <= x.shape[0]
    requires y.Valid() && |y.shape| >= 2 && InBase(Batch(y), c) && j < Cols(y, ty) && n <= Rows(y, ty)
  {
    if n == 0 then 0.0 else VecInner(x, y, ty, c, j, n - 1) + El(x, [n - 1]) * Entry(y, ty, c, n - 1, j)
  }

  // ---------- the references are sums of products of elements ----------

  ghost predicate IsSum(terms: seq<real>, sums: seq<real>) {
    && |sums| == |terms| + 1 && sums[0] == 0.0
    && forall l | 0 <= l < |terms| :: sums[l + 1] == sums[l] + terms[l]
  }

  lemma MoreTerms(terms: seq<real>, sums: seq<real>, v: real, total: real)
    requires IsSum(terms, sums) && total == sums[|terms|] + v
    ensures IsSum(terms + [v], sums + [total])
  {
  }

  /** `v` is the product of the elements that the two operands have at common index `l`. */
  ghost predicate IsTerm(
    x: Tensor, tx: bool, b: seq<nat>, i: nat, y: Tensor, ty: bool, c: seq<nat>, j: nat, l: nat, v: real)
    requires x.Valid() && y.Valid()
  {
    var xi, yi := b + if tx then [l, i] else [i, l], c + if ty then [j, l] else [l, j];
    InBase(x.shape, xi) && InBase(y.shape, yi) && v == El(x, xi) * El(y, yi)
  }

  /** The inner product adds up one product of elements for each of the `n` common indices, from left to right. */
  lemma {:induction false} InnerSums(
    x: Tensor, tx: bool, b: seq<nat>, i: nat, y: Tensor, ty: bool, c: seq<nat>, j: nat, n: nat, terms: seq<real>)
    returns (sums: seq<real>)
    requires x.Valid() && |x.shape| >= 2 && InBase(Batch(x), b) && i < Rows(x, tx) && n <= Cols(x, tx)
    requires y.Valid() && |y.shape| >= 2 && InBase(Batch(y), c) && j < Cols(y, ty) && n <= Rows(y, ty)
    requires |terms| == n && forall l: nat | l < n :: IsTerm(x, tx, b, i, y, ty, c, j, l, terms[l])
    ensures IsSum(terms, sums) && sums[n] == Inner(x, tx, b, i, y, ty, c, j, n)
  {
    hide IsTerm, Inner, El, Batch, Rows, Cols, Tensor.Valid, InBase;
    if n == 0 {
      sums := [0.0];
      InnerNone(x, tx, b, i, y, ty, c, j);
    } else {
      var most := InnerSums(x, tx, b, i, y, ty, c, j, n - 1, terms[..n - 1]);
      var total := Inner(x, tx, b, i, y, ty, c, j, n);
      sums := most + [total];
      InnerLast(x, tx, b, i, y, ty, c, j, n, terms[n - 1]);
      MoreTerms(terms[..n - 1], most, terms[n - 1], total);
      assert terms[..n - 1] + [terms[n - 1]] == terms;
    }
  }

  lemma InnerNone(x: Tensor, tx: bool, b: seq<nat>, i: nat, y: Tensor, ty: bool, c: seq<nat>, j: nat)
    requires x.Valid() && |x.shape| >= 2 && InBase(Batch(x), b) && i < Rows(x, tx)
    requires y.Valid() && |y.shape| >= 2 && InBase(Batch(y), c) && j < Cols(y, ty)
    ensures Inner(x, tx, b, i, y, ty, c, j, 0) == 0.0
  {
    hide El;
  }

  lemma InnerLast(
    x: Tensor, tx: bool, b: seq<nat>, i: nat, y: Tensor, ty: bool, c: seq<nat>, j: nat, n: nat, v: real)
    requires x.Valid() && |x.shape| >= 2 && InBase(Batch(x), b) && i < Rows(x, tx) && 0 < n <= Cols(x, tx)
    requires y.Valid() && |y.shape| >= 2 && InBase(Batch(y), c) && j < Cols(y, ty) && n <= Rows(y, ty)
    requires IsTerm(x, tx, b, i, y, ty, c, j, n - 1, v)
    ensures Inner(x, tx, b, i, y, ty, c, j, n) == Inner(x, tx, b, i, y, ty, c, j, n - 1) + v
  {
    hide El;
  }

  /** The same with a vector on the right. */
  lemma {:induction false} InnerVecSums(
    x: Tensor, tx: bool, b: seq<nat>, i: nat, y: Tensor, n: nat, terms: seq<real>) returns (sums: seq<real>)
    requires x.Valid() && |x.shape| >= 2 && InBase(Batch(x), b) && i < Rows(x, tx) && n <= Cols(x, tx)
    requires y.Valid() && |y.shape| == 1 && n <= y.shape[0]
    requires |terms| == n && forall l: nat | l < n :: IsVecTerm(x, tx, b, i, y, l, terms[l])
    ensures IsSum(terms, sums) && sums[n] == InnerVec(x, tx, b, i, y, n)
  {
    hide IsVecTerm, InnerVec, El, Batch, Rows, Cols, Tensor.Valid, InBase;
    if n == 0 {
      sums := [0.0];
      InnerVecNone(x, tx, b, i, y);
    } else {
      var most := InnerVecSums(x, tx, b, i, y, n - 1, terms[..n - 1]);
      var total := InnerVec(x, tx, b, i, y, n);
      sums := most + [total];
      InnerVecLast(x, tx, b, i, y, n, terms[n - 1]);
      MoreTerms(terms[..n - 1], most, terms[n - 1], total);
      assert terms[..n - 1] + [terms[n - 1]] == terms;
    }
  }

  ghost predicate IsVecTerm(x: Tensor, tx: bool, b: seq<nat>, i: nat, y: Tensor, l: nat, v: real)
    requires x.Valid() && y.Valid()
  {
    var xi := b + if tx then [l, i] else [i, l];
    InBase(x.shape, xi) && InBase(y.shape, [l]) && v == El(x, xi) * El(y, [l])
  }

  lemma InnerVecNone(x: Tensor, tx: bool, b: seq<nat>, i: nat, y: Tensor)
    requires x.Valid() && |x.shape| >= 2 && InBase(Batch(x), b) && i < Rows(x, tx)
    requires y.Valid() && |y.shape| == 1
    ensures InnerVec(x, tx, b, i, y, 0) == 0.0
  {
    hide El;
  }

  lemma InnerVecLast(x: Tensor, tx: bool, b: seq<nat>, i: nat, y: Tensor, n: nat, v: real)
    requires x.Valid() && |x.shape| >= 2 && InBase(Batch(x), b) && i < Rows(x, tx) && 0 < n <= Cols(x, tx)
    requires y.Valid() && |y.shape| == 1 && n <= y.shape[0] && IsVecTerm(x, tx, b, i, y, n - 1, v)
    ensures InnerVec(x, tx, b, i, y, n) == InnerVec(x, tx, b, i, y, n - 1) + v
  {
    hide El;
  }

  // ---------- the branch itself ----------

  /** What the product must be, for every batch and cell, whichever operand carries the batch. */
  ghost predicate IsProduct(x: Tensor, y: Tensor, tx: bool, ty: bool, out: Tensor)
    requires x.Valid() && y.Valid() && out.Valid()
    requires (|x.shape| >= 3 && 1 <= |y.shape| <= 2) || (1 <= |x.shape| <= 2 && |y.shape| >= 3)
  {
    if |x.shape| >= 3 && |y.shape| == 2 then
      Cols(x, tx) == Rows(y, ty) && out.shape == Batch(x) + [Rows(x, tx), Cols(y, ty)]
      && forall b: seq<nat>, i: nat, j: nat | InBase(Batch(x), b) && i < Rows(x, tx) && j < Cols(y, ty) ::
           InBase(out.shape, b + [i, j]) && El(out, b + [i, j]) == Inner(x, tx, b, i, y, ty, [], j, Cols(x, tx))
    else if |x.shape| >= 3 then
      Cols(x, tx) == y.shape[0] && out.shape == Batch(x) + [Rows(x, tx)]
      && forall b: seq<nat>, i: nat | InBase(Batch(x), b) && i < Rows(x, tx) ::
           InBase(out.shape, b + [i]) && El(out, b + [i]) == InnerVec(x, tx, b, i, y, Cols(x, tx))
    else if |x.shape| == 2 then
      Cols(x, tx) == Rows(y, ty) && out.shape == Batch(y) + [Rows(x, tx), Cols(y, ty)]
      && forall b: seq<nat>, i: nat, j: nat | InBase(Batch(y), b) && i < Rows(x, tx) && j < Cols(y, ty) ::
           InBase(out.shape, b + [i, j]) && El(out, b + [i, j]) == Inner(x, tx, [], i, y, ty, b, j, Cols(x, tx))
    else
      x.shape[0] == Rows(y, ty) && out.shape == Batch(y) + [Cols(y, ty)]
      && forall b: seq<nat>, j: nat | InBase(Batch(y), b) && j < Cols(y, ty) ::
           InBase(out.shape, b + [j]) && El(out, b + [j]) == VecInner(x, y, ty, b, j, x.shape[0])
  }

  /** The sizes that are summed over. */
  function LeftInner(x: Tensor, trans: bool): nat
    requires |x.shape| >= 1
  {
    if |x.shape| >= 2 then Cols(x, trans) else x.shape[0]
  }

  function RightInner(y: Tensor, trans: bool): nat
    requires |y.shape| >= 1
  {
    if |y.shape| >= 2 then Rows(y, trans) else y.shape[0]
  }

  /**
   The folding branch: exchange the operands if the second one carries the batch, fold, multiply
   once, unfold, and transpose the result back if they were exchanged. Every element is that of
   the product batch by batch; an error exactly when the inner sizes differ.
   */
  method Matmul(x: Tensor, y: Tensor, transLeft: bool, transRight: bool) returns (out: Option<Tensor>)
    requires x.Valid() && y.Valid()
    requires (|x.shape| >= 3 && 1 <= |y.shape| <= 2) || (1 <= |x.shape| <= 2 && |y.shape| >= 3)
    ensures out.Some? ==> out.value.Valid() && IsProduct(x, y, transLeft, transRight, out.value)
    ensures out.None? <==> LeftInner(x, transLeft) != RightInner(y, transRight)
  {
    hide IsProduct, Tensor.Valid;
    var transpose := |y.shape| > |x.shape|;
    var big, small := if transpose then y else x, if transpose then x else y;
    var outputTranspose := |small.shape| == 2 && transpose;
    var tl, tr := transLeft, transRight;
    if transpose {
      tl, tr := tr, tl;
      tl, tr := !tl, !tr;
    }
    var r := FoldedProduct(big, small, tl, tr);
    if r.None? {
      return None;
    }
    if outputTranspose {
      TransposedIsProduct(x, y, transLeft, transRight);
      return Some(Swapped(r.value));
    }
    if transpose {
      VectorTimesIsProduct(x, y, transLeft, transRight);
    } else {
      TimesIsProduct(x, y, transLeft, transRight);
    }
    return r;
  }

  /** The shape of the product. */
  function ProductShape(x: Tensor, y: Tensor, tx: bool, ty: bool): seq<nat>
    requires (|x.shape| >= 3 && 1 <= |y.shape| <= 2) || (1 <= |x.shape| <= 2 && |y.shape| >= 3)
  {
    if |x.shape| >= 3 then Batch(x) + [Rows(x, tx)] + (if |y.shape| == 2 then [Cols(y, ty)] else [])
    else Batch(y) + (if |x.shape| == 2 then [Rows(x, tx)] else []) + [Cols(y, ty)]
  }

  lemma ProductHasShape(x: Tensor, y: Tensor, tx: bool, ty: bool, out: Tensor)
    requires x.Valid() && y.Valid() && out.Valid()
    requires (|x.shape| >= 3 && 1 <= |y.shape| <= 2) || (1 <= |x.shape| <= 2 && |y.shape| >= 3)
    requires IsProduct(x, y, tx, ty, out)
    ensures out.shape == ProductShape(x, y, tx, ty)
  {
    hide El, Inner, InnerVec, VecInner, Tensor.Valid;
  }

  /** A contiguous array that a caller hands over to be filled. */
  class Buffer {
    const shape: seq<nat>
    const data: array<real>

    predicate Valid() {
      data.Length == Prod(shape)
    }

    function Value(): Tensor
      reads data
    {
      Tensor(shape, data[..])
    }

    constructor (shape: seq<nat>)
      ensures Valid() && this.shape == shape && fresh(data)
    {
      this.shape := shape;
      data := new real[Prod(shape)];
    }

    /** `copy`: an empty input is not even compared, otherwise the shapes must agree. */
    method Copy(input: Tensor) returns (ok: bool)
      requires Valid() && input.Valid()
      modifies data
      ensures ok <==> Prod(input.shape) == 0 || input.shape == shape
      ensures data[..] == if ok && input.shape == shape then input.data else old(data[..])
    {
      if Prod(input.shape) == 0 {
        assert input.shape == shape ==> data[..] == input.data;
        return true;
      }
      if input.shape != shape {
        return false;
      }
      for i := 0 to data.Length
        invariant data[..i] == input.data[..i]
      {
        data[i] := input.data[i];
      }
      assert data[..data.Length] == data[..] && input.data[..data.Length] == input.data;
      return true;
    }

    /** `contiguous` into an existing array: the shapes must agree, also for empty arrays. */
    method Fill(input: Tensor) returns (ok: bool)
      requires Valid() && input.Valid()
      modifies data
      ensures ok <==> input.shape == shape
      ensures data[..] == if ok then input.data else old(data[..])
    {
      if input.shape != shape {
        return false;
      }
      ok := Copy(input);
    }
  }

  /**
   The folding branch with an array for the result. Unless the operands were exchanged and the result
   transposed back, an empty product accepts an array of any shape, and leaves it as it is.
   */
  method MatmulInto(x: Tensor, y: Tensor, transLeft: bool, transRight: bool, output: Buffer) returns (ok: bool)
    requires x.Valid() && y.Valid() && output.Valid()
    requires (|x.shape| >= 3 && 1 <= |y.shape| <= 2) || (1 <= |x.shape| <= 2 && |y.shape| >= 3)
    requires |x.shape| == 2 ==> |y.shape| <= |output.shape|
    modifies output.data
    ensures ok <==> LeftInner(x, transLeft) == RightInner(y, transRight)
                    && (output.shape == ProductShape(x, y, transLeft, transRight)
                        || (|x.shape| != 2 && Prod(ProductShape(x, y, transLeft, transRight)) == 0))
    ensures ok && output.shape == ProductShape(x, y, transLeft, transRight) ==>
              output.Value().Valid() && IsProduct(x, y, transLeft, transRight, output.Value())
    ensures !ok || output.shape != ProductShape(x, y, transLeft, transRight) ==> output.data[..] == old(output.data[..])
  {
    hide IsProduct, ProductShape, Prod;
    var product := Matmul(x, y, transLeft, transRight);
    if product.None? {
      return false;
    }
    ProductHasShape(x, y, transLeft, transRight, product.value);
    if |x.shape| == 2 {
      ok := output.Fill(product.value);
    } else {
      ok := output.Copy(product.value);
    }
    assert ok && output.shape == product.value.shape ==> output.Value() == product.value;
  }

  lemma TimesIsProduct(x: Tensor, y: Tensor, tx: bool, ty: bool)
    requires x.Valid() && y.Valid() && |x.shape| >= 3 && 1 <= |y.shape| <= 2 && FoldedProduct(x, y, tx, ty).Some?
    ensures IsProduct(x, y, tx, ty, FoldedProduct(x, y, tx, ty).value)
  {
    hide FoldedProduct, Tensor.Valid, El, Inner, InnerVec;
    var out := FoldedProduct(x, y, tx, ty).value;
    if |y.shape| == 2 {
      assert Outer(x, tx) + [Cols(y, ty)] == Batch(x) + [Rows(x, tx), Cols(y, ty)];
      forall b: seq<nat>, i: nat, j: nat | InBase(Batch(x), b) && i < Rows(x, tx) && j < Cols(y, ty)
        ensures InBase(out.shape, b + [i, j]) && El(out, b + [i, j]) == Inner(x, tx, b, i, y, ty, [], j, Cols(x, tx))
      {
        FoldedProductAt(x, y, tx, ty, b, i, j);
      }
    } else {
      forall b: seq<nat>, i: nat | InBase(Batch(x), b) && i < Rows(x, tx)
        ensures InBase(out.shape, b + [i]) && El(out, b + [i]) == InnerVec(x, tx, b, i, y, Cols(x, tx))
      {
        FoldedVectorAt(x, y, tx, ty, b, i);
      }
    }
  }

  lemma TransposedIsProduct(x: Tensor, y: Tensor, tx: bool, ty: bool)
    requires x.Valid() && y.Valid() && |x.shape| == 2 && |y.shape| >= 3 && FoldedProduct(y, x, !ty, !tx).Some?
    ensures |FoldedProduct(y, x, !ty, !tx).value.shape| >= 2
    ensures IsProduct(x, y, tx, ty, Swapped(FoldedProduct(y, x, !ty, !tx).value))
  {
    hide FoldedProduct, Tensor.Valid, El, Inner, Swapped;
    var r := FoldedProduct(y, x, !ty, !tx).value;
    var out := Swapped(r);
    assert r.shape == Batch(y) + [Cols(y, ty), Rows(x, tx)];
    assert out.shape == Batch(y) + [Rows(x, tx), Cols(y, ty)];
    forall b: seq<nat>, i: nat, j: nat | InBase(Batch(y), b) && i < Rows(x, tx) && j < Cols(y, ty)
      ensures InBase(out.shape, b + [i, j]) && El(out, b + [i, j]) == Inner(x, tx, [], i, y, ty, b, j, Cols(x, tx))
    {
      TransposedCell(x, y, tx, ty, b, i, j, r);
    }
  }

  lemma TransposedCell(x: Tensor, y: Tensor, tx: bool, ty: bool, b: seq<nat>, i: nat, j: nat, r: Tensor)
    requires x.Valid() && y.Valid() && |x.shape| == 2 && |y.shape| >= 3
    requires FoldedProduct(y, x, !ty, !tx) == Some(r) && Cols(x, tx) == Rows(y, ty)
    requires r.shape == Batch(y) + [Cols(y, ty), Rows(x, tx)]
    requires r.Valid() && InBase(Batch(y), b) && i < Rows(x, tx) && j < Cols(y, ty)
    ensures InBase(SwapTail(r.shape), b + [i, j])
    ensures El(Swapped(r), b + [i, j]) == Inner(x, tx, [], i, y, ty, b, j, Cols(x, tx))
  {
    hide FoldedProduct, El, Inner, Swapped;
    FoldedProductAt(y, x, !ty, !tx, b, j, i);
    SwapTailInBase(r.shape, b + [j, i]);
    assert SwapTail(b + [j, i]) == b + [i, j] && SwapTail(b + [i, j]) == b + [j, i];
    SwappedAt(r, b + [i, j]);
    InnerTransposed(x, tx, i, y, ty, b, j, Cols(x, tx));
  }

  lemma VectorTimesIsProduct(x: Tensor, y: Tensor, tx: bool, ty: bool)
    requires x.Valid() && y.Valid() && |x.shape| == 1 && |y.shape| >= 3 && FoldedProduct(y, x, !ty, !tx).Some?
    ensures IsProduct(x, y, tx, ty, FoldedProduct(y, x, !ty, !tx).value)
  {
    hide FoldedProduct, Tensor.Valid, El, InnerVec, VecInner;
    var out := FoldedProduct(y, x, !ty, !tx).value;
    forall b: seq<nat>, j: nat | InBase(Batch(y), b) && j < Cols(y, ty)
      ensures InBase(out.shape, b + [j]) && El(out, b + [j]) == VecInner(x, y, ty, b, j, x.shape[0])
    {
      FoldedVectorAt(y, x, !ty, !tx, b, j);
      InnerVecTransposed(x, y, ty, b, j, x.shape[0]);
    }
  }
}
