/**
 Chains of views: the storage check of the array constructor never fires on a non-empty view,
 and when rebuilding row-major strides keeps the elements.
 */
module ViewChains {
  import opened Collections
  import opened MixedRadix
  import opened Strides
  import opened NDArrayMetas
  import opened StridedViews

  // ---------- a safe non-empty view fits its storage ----------

  lemma {:induction false} DotInjective(v: NDArray, lo: int, hi: int, n: nat) returns (s: seq<int>)
    requires Safe(v, lo, hi) && NonEmpty(v) && n <= Prod(v.layout.shape)
    ensures |s| == n && NoDup(s)
    ensures forall x | 0 <= x < n :: s[x] == Address(v, Digits(v.layout.shape, x))
    ensures forall x | 0 <= x < n :: v.offset <= s[x] < hi
  {
    hide Prod, Digits, Dot;
    if n == 0 {
      s := [];
    } else {
      var most := DotInjective(v, lo, hi, n - 1);
      var last := Digits(v.layout.shape, n - 1);
      s := most + [Address(v, last)];
      assert Within(v, last);
      DotNat(last, v.layout.stride);
      forall x: nat | x < n - 1 ensures most[x] != Address(v, last) {
        if most[x] == Address(v, last) {
          assert Within(v, Digits(v.layout.shape, x));
          DigitsInjective(v.layout.shape, x, n - 1);
        }
      }
    }
  }

  /** Distinct addresses inside the base array leave room for all elements behind the offset. */
  lemma SafeFits(v: NDArray, lo: int, hi: int)
    requires Safe(v, lo, hi) && NonEmpty(v)
    ensures v.offset + Prod(v.layout.shape) <= hi
  {
    hide Prod, Dot;
    ProdPos(v.layout.shape);
    var s := DotInjective(v, lo, hi, Prod(v.layout.shape));
    assert v.offset <= s[0] < hi;
    Pigeonhole(s, v.offset, hi);
  }

  // ---------- chains ----------

  datatype ViewOp =
    | PermuteOp(axes: seq<int>)
    | MoveDimOp(src: int, dst: int)
    | SqueezeOp
    | SqueezeAtOp(dim: int)
    | UnsqueezeOp(dim: int)
    | SliceOp(begin: seq<int>, want: seq<int>)
    | DiagonalOp(dim1: int, dim2: int, offset: int)

  ghost function At(v: NDArray, l: Option<Layout>): Option<NDArray> {
    if l.None? then None else Some(NDArray(l.value, v.offset))
  }

  /** The view an operation makes, apart from the storage check; `None` where another assertion fails. */
  ghost function Apply(v: NDArray, op: ViewOp): Option<NDArray>
    requires v.layout.Paired()
  {
    match op
    case PermuteOp(axes) => PermuteBy(v, axes)
    case MoveDimOp(src, dst) => MoveDim(v, src, dst)
    case SqueezeOp => Some(NDArray(Squeezed(v.layout), v.offset))
    case SqueezeAtOp(dim) => At(v, SqueezedAt(v.layout, dim))
    case UnsqueezeOp(dim) => At(v, Unsqueezed(v.layout, dim))
    case SliceOp(begin, want) => Slice(v, begin, want)
    case DiagonalOp(dim1, dim2, offset) => Diagonal(v, dim1, dim2, offset)
  }

  lemma ApplySafe(v: NDArray, op: ViewOp, lo: int, hi: int)
    requires Safe(v, lo, hi) && Apply(v, op).Some?
    ensures Safe(Apply(v, op).value, lo, hi)
  {
    hide Safe;
    match op
    case PermuteOp(axes) => PermuteSafe(v, axes[..|v.layout.shape|], lo, hi);
    case MoveDimOp(src, dst) =>
      var s, d := ParseAxis(src, |v.layout.shape|).value, ParseAxis(dst, |v.layout.shape|).value;
      PermuteSafe(v, MoveAxes(|v.layout.shape|, s, d), lo, hi);
    case SqueezeOp => SqueezeSafe(v, lo, hi);
    case SqueezeAtOp(dim) => SqueezeAtSafe(v, dim, lo, hi);
    case UnsqueezeOp(dim) => UnsqueezeSafe(v, dim, lo, hi);
    case SliceOp(begin, want) => SliceSafe(v, begin, want, lo, hi);
    case DiagonalOp(dim1, dim2, offset) =>
      DiagonalSafe(v, ParseAxis(dim1, |v.layout.shape|).value, ParseAxis(dim2, |v.layout.shape|).value, offset, lo, hi);
  }

  /** An operation does not make an empty array non-empty. */
  lemma ApplyNonEmpty(v: NDArray, op: ViewOp)
    requires v.layout.Paired() && Apply(v, op).Some? && NonEmpty(Apply(v, op).value)
    ensures NonEmpty(v)
  {
    hide NonEmpty, Permuted, MoveAxes, Squeezed, SqueezedAt, Unsqueezed, Slice, DiagonalOf;
    match op
    case PermuteOp(axes) => PermuteNonEmpty(v, axes[..|v.layout.shape|]);
    case MoveDimOp(src, dst) =>
      var n := |v.layout.shape|;
      PermuteNonEmpty(v, MoveAxes(n, ParseAxis(src, n).value, ParseAxis(dst, n).value));
    case SqueezeOp => SqueezeNonEmpty(v);
    case SqueezeAtOp(dim) => SqueezeAtNonEmpty(v, dim);
    case UnsqueezeOp(dim) => UnsqueezeNonEmpty(v, dim);
    case SliceOp(begin, want) => SliceNonEmpty(v, begin, want);
    case DiagonalOp(dim1, dim2, offset) =>
      DiagonalNonEmpty(v, ParseAxis(dim1, |v.layout.shape|).value, ParseAxis(dim2, |v.layout.shape|).value, offset);
  }

  lemma PermuteNonEmpty(v: NDArray, axes: seq<int>)
    requires v.layout.Paired() && Permute(v, axes).Some? && NonEmpty(Permute(v, axes).value)
    ensures NonEmpty(v)
  {
    PermutedNonEmpty(v.layout.shape, axes);
  }

  lemma SqueezeNonEmpty(v: NDArray)
    requires v.layout.Paired() && NonEmpty(NDArray(Squeezed(v.layout), v.offset))
    ensures NonEmpty(v)
  {
    SqueezedNonEmpty(v.layout);
  }

  lemma SqueezeAtNonEmpty(v: NDArray, dim: int)
    requires v.layout.Paired() && SqueezedAt(v.layout, dim).Some?
    requires NonEmpty(NDArray(SqueezedAt(v.layout, dim).value, v.offset))
    ensures NonEmpty(v)
  {
    var sh := v.layout.shape;
    var d := ParseAxis(dim, |sh|).value;
    if sh[d] == 1 { WithoutNonEmpty(sh, d); }
  }

  lemma UnsqueezeNonEmpty(v: NDArray, dim: int)
    requires v.layout.Paired() && Unsqueezed(v.layout, dim).Some?
    requires NonEmpty(NDArray(Unsqueezed(v.layout, dim).value, v.offset))
    ensures NonEmpty(v)
  {
    var sh, r := v.layout.shape, Unsqueezed(v.layout, dim).value.shape;
    var d := ParseAxis(dim, |sh| + 1).value;
    forall i | 0 <= i < |sh| ensures sh[i] >= 1 { assert r[if i < d then i else i + 1] >= 1; }
  }

  lemma SliceNonEmpty(v: NDArray, begin: seq<int>, want: seq<int>)
    requires v.layout.Paired() && Slice(v, begin, want).Some? && NonEmpty(Slice(v, begin, want).value)
    ensures NonEmpty(v)
  {
    var sh, r := v.layout.shape, Slice(v, begin, want).value.layout.shape;
    forall i | 0 <= i < |sh| ensures sh[i] >= 1 { assert r[i] >= 1; }
  }

  lemma DiagonalNonEmpty(v: NDArray, d1: nat, d2: nat, offset: int)
    requires v.layout.Paired() && d1 != d2 && d1 < |v.layout.shape| && d2 < |v.layout.shape|
    requires DiagonalOf(v, d1, d2, offset).Some? && NonEmpty(DiagonalOf(v, d1, d2, offset).value)
    ensures NonEmpty(v)
  {
    var sh, r := v.layout.shape, DiagonalOf(v, d1, d2, offset).value.layout.shape;
    var lo, hi := StridedViews.Min(d1, d2), StridedViews.Max(d1, d2);
    forall i | 0 <= i < |sh| - 2 ensures Without(Without(sh, hi), lo)[i] >= 1 { assert r[i] >= 1; }
    WithoutNonEmpty(Without(sh, hi), lo);
    WithoutNonEmpty(sh, hi);
  }

  lemma PermutedNonEmpty(shape: seq<nat>, axes: seq<int>)
    requires Permutation(axes, |shape|) && AllPos(Permuted(shape, axes))
    ensures AllPos(shape)
  {
    forall j | 0 <= j < |shape| ensures shape[j] >= 1 {
      PermutationOnto(axes, |shape|, j);
      assert Permuted(shape, axes)[IndexOf(axes, j)] >= 1;
    }
  }

  lemma WithoutNonEmpty(shape: seq<nat>, p: nat)
    requires p < |shape| && shape[p] >= 1 && AllPos(Without(shape, p))
    ensures AllPos(shape)
  {
    forall i | 0 <= i < |shape| ensures shape[i] >= 1 {
      if i != p { assert Without(shape, p)[if i < p then i else i - 1] >= 1; }
    }
  }

  lemma {:induction false} SqueezedNonEmpty(l: Layout)
    requires l.Paired() && AllPos(Squeezed(l).shape)
    ensures AllPos(l.shape)
    decreases |l.shape|
  {
    if l.shape != [] {
      var k := |l.shape| - 1;
      var most := Layout(l.shape[..k], l.stride[..k]);
      var sq, r := Squeezed(most).shape, Squeezed(l).shape;
      forall i | 0 <= i < |sq| ensures sq[i] >= 1 { assert r[i] >= 1; }
      SqueezedNonEmpty(most);
      assert l.shape[k] >= 1 by {
        if l.shape[k] != 1 { assert r[|r| - 1] >= 1; }
      }
    }
  }

  /** A chain of operations, with and without the storage check of every array on the way. */
  ghost function Chain(v: NDArray, ops: seq<ViewOp>): Option<NDArray>
    requires v.layout.Paired()
  {
    if ops == [] then Some(v) else
      var most := Chain(v, ops[..|ops| - 1]);
      if most.None? || !most.value.layout.Paired() then None else Apply(most.value, ops[|ops| - 1])
  }

  ghost function CheckedChain(v: NDArray, ops: seq<ViewOp>, size: nat): Option<NDArray>
    requires v.layout.Paired()
  {
    if ops == [] then Some(v) else
      var most := CheckedChain(v, ops[..|ops| - 1], size);
      if most.None? || !most.value.layout.Paired() then None else
        var r := Apply(most.value, ops[|ops| - 1]);
        if r.None? || !StorageSuffices(r.value, size) then None else r
  }

  /** The base of a chain: a contiguous array somewhere in its storage. */
  ghost function Base(shape: seq<nat>, offset: nat): NDArray {
    NDArray(Layout(shape, RowMajor(shape)), offset)
  }

  lemma BaseSafe(shape: seq<nat>, offset: nat)
    ensures Safe(Base(shape, offset), offset, offset + Prod(shape))
  {
    hide Prod, Rank, Dot, Digits, Weights;
    var v := Base(shape, offset);
    forall idx: seq<nat> | Within(v, idx) ensures offset <= Address(v, idx) < offset + Prod(shape) {
      BaseAddress(shape, offset, idx);
    }
    forall i: seq<nat>, j: seq<nat> | Within(v, i) && Within(v, j) && Address(v, i) == Address(v, j) ensures i == j {
      BaseAddress(shape, offset, i);
      BaseAddress(shape, offset, j);
    }
  }

  lemma BaseAddress(shape: seq<nat>, offset: nat, idx: seq<nat>)
    requires InBase(shape, idx)
    ensures AllPos(shape) && Address(Base(shape, offset), idx) == offset + Rank(shape, idx)
    ensures Rank(shape, idx) < Prod(shape) && Digits(shape, Rank(shape, idx)) == idx
  {
    forall i | 0 <= i < |shape| ensures shape[i] >= 1 { assert idx[i] < shape[i]; }
    assert 0 !in shape;
    DigitsOfRank(shape, idx);
    hide Prod, Rank, Dot, Digits, Weights;
    RankIsDot(shape, idx);
  }

  lemma {:induction false} ChainSafe(shape: seq<nat>, offset: nat, ops: seq<ViewOp>)
    requires Chain(Base(shape, offset), ops).Some?
    ensures Safe(Chain(Base(shape, offset), ops).value, offset, offset + Prod(shape))
    decreases |ops|
  {
    hide Prod, Apply, Safe, RowMajor;
    if ops == [] {
      BaseSafe(shape, offset);
    } else {
      var most := Chain(Base(shape, offset), ops[..|ops| - 1]).value;
      ChainSafe(shape, offset, ops[..|ops| - 1]);
      ApplySafe(most, ops[|ops| - 1], offset, offset + Prod(shape));
    }
  }

  /**
   View chains are safe: whatever operations succeed on a contiguous array, the resulting view
   addresses only elements of that array, never the same one twice, and if it is not empty, no
   storage check fires anywhere along the chain.
   */
  lemma {:induction false} ChainNeverFires(shape: seq<nat>, offset: nat, size: nat, ops: seq<ViewOp>)
    requires offset + Prod(shape) <= size && Chain(Base(shape, offset), ops).Some?
    requires NonEmpty(Chain(Base(shape, offset), ops).value)
    ensures CheckedChain(Base(shape, offset), ops, size) == Chain(Base(shape, offset), ops)
    ensures StorageSuffices(Chain(Base(shape, offset), ops).value, size)
    ensures Safe(Chain(Base(shape, offset), ops).value, offset, offset + Prod(shape))
    decreases |ops|
  {
    hide Prod, Apply, Safe, RowMajor;
    ChainSafe(shape, offset, ops);
    SafeFits(Chain(Base(shape, offset), ops).value, offset, offset + Prod(shape));
    if ops != [] {
      var most := Chain(Base(shape, offset), ops[..|ops| - 1]).value;
      ApplyNonEmpty(most, ops[|ops| - 1]);
      ChainNeverFires(shape, offset, size, ops[..|ops| - 1]);
    }
  }

  // ---------- when the check does fire ----------

  lemma {:induction false} EmptyProd(shape: seq<nat>)
    requires !AllPos(shape)
    ensures Prod(shape) == 0
  {
    var k := |shape| - 1;
    if shape[k] >= 1 {
      assert !AllPos(shape[..k]) by {
        var i :| 0 <= i < |shape| && shape[i] < 1;
        assert shape[..k][i] == shape[i];
      }
      EmptyProd(shape[..k]);
    }
  }

  /**
   On a safe view inside the storage the check of the next view fires exactly for an empty one whose
   offset lies outside.
   */
  lemma FiresIff(v: NDArray, op: ViewOp, lo: int, hi: int, size: nat)
    requires Safe(v, lo, hi) && hi <= size && Apply(v, op).Some?
    ensures var r := Apply(v, op).value;
            !StorageSuffices(r, size) <==> !NonEmpty(r) && r.offset > size
  {
    var r := Apply(v, op).value;
    hide Prod, Safe, Apply;
    ApplySafe(v, op, lo, hi);
    if NonEmpty(r) {
      SafeFits(r, lo, hi);
    } else {
      EmptyProd(r.layout.shape);
    }
  }

  /** Along some dimension no coordinate lies between the beginning and the beginning plus the length. */
  ghost predicate TakesNothing(shape: seq<nat>, begin: seq<int>, want: seq<int>)
    requires |shape| == |begin| == |want|
  {
    exists i | 0 <= i < |shape| :: NoneBetween(begin[i], begin[i] + want[i], shape[i])
  }

  ghost predicate NoneBetween(begin: int, end: int, n: nat) {
    forall c: int :: !Between(c, begin, end, n)
  }

  lemma NoneBetweenIff(begin: int, want: int, n: nat)
    ensures NoneBetween(begin, begin + want, n) <==> SliceStart(begin, n) == SliceEnd(begin, want, n)
  {
    if SliceStart(begin, n) < SliceEnd(begin, want, n) {
      assert Between(SliceStart(begin, n), begin, begin + want, n);
    }
  }

  /**
   What can be told from the arguments: an empty slice of a non-empty view, or a diagonal of an
   empty one, whose start lies outside the storage.
   */
  ghost predicate FiresOn(v: NDArray, op: ViewOp, size: nat)
    requires v.layout.Paired() && Apply(v, op).Some?
  {
    var shape, stride := v.layout.shape, v.layout.stride;
    match op
    case SliceOp(begin, want) =>
      NonEmpty(v) && TakesNothing(shape, begin, want) && v.offset + Dot(Starts(begin, shape), stride) > size
    case DiagonalOp(dim1, dim2, offset) =>
      var d1, d2 := ParseAxis(dim1, |shape|).value, ParseAxis(dim2, |shape|).value;
      !NonEmpty(v) && v.offset + (if offset >= 0 then offset * stride[d2] else (0 - offset) * stride[d1]) > size
    case _ => false
  }

  lemma SliceFires(v: NDArray, begin: seq<int>, want: seq<int>, size: nat)
    requires v.layout.Paired() && Slice(v, begin, want).Some? && v.offset <= size
    ensures var r := Slice(v, begin, want).value;
            !NonEmpty(r) && r.offset > size <==> FiresOn(v, SliceOp(begin, want), size)
  {
    hide Prod, Dot;
    var shape := v.layout.shape;
    var r := Slice(v, begin, want).value;
    if NonEmpty(v) {
      ProdPos(shape);
      if TakesNothing(shape, begin, want) {
        var i :| 0 <= i < |shape| && NoneBetween(begin[i], begin[i] + want[i], shape[i]);
        NoneBetweenIff(begin[i], want[i], shape[i]);
        assert r.layout.shape[i] == 0;
      }
    } else {
      EmptyProd(shape);
    }
  }

  lemma DiagonalFires(v: NDArray, dim1: int, dim2: int, offset: int, size: nat)
    requires v.layout.Paired() && Diagonal(v, dim1, dim2, offset).Some?
    ensures var r := Diagonal(v, dim1, dim2, offset).value;
            !NonEmpty(r) && r.offset > size <==> FiresOn(v, DiagonalOp(dim1, dim2, offset), size)
  {
    hide Prod;
    var r, n := Diagonal(v, dim1, dim2, offset).value, |v.layout.shape|;
    var d1, d2 := ParseAxis(dim1, n).value, ParseAxis(dim2, n).value;
    if NonEmpty(r) {
      DiagonalNonEmpty(v, d1, d2, offset);
    }
    if NonEmpty(v) {
      var lo, hi := StridedViews.Min(d1, d2), StridedViews.Max(d1, d2);
      WithoutPos(v.layout.shape, hi);
      WithoutPos(Without(v.layout.shape, hi), lo);
      assert AllPos(r.layout.shape);
    }
  }

  lemma WithoutPos(shape: seq<nat>, p: nat)
    requires p < |shape| && AllPos(shape)
    ensures AllPos(Without(shape, p))
  {
    assert forall i | 0 <= i < |shape| - 1 :: Without(shape, p)[i] == shape[if i < p then i else i + 1];
  }

  /** Exactly the slices and diagonals that start outside the storage and take nothing trip the check. */
  lemma OpFiresIff(v: NDArray, op: ViewOp, lo: int, hi: int, size: nat)
    requires Safe(v, lo, hi) && hi <= size && StorageSuffices(v, size) && Apply(v, op).Some?
    ensures !StorageSuffices(Apply(v, op).value, size) <==> FiresOn(v, op, size)
  {
    FiresIff(v, op, lo, hi, size);
    hide Prod, Safe, NonEmpty, StorageSuffices, Slice, Diagonal, Permuted, MoveAxes, Squeezed, SqueezedAt, Unsqueezed;
    assert v.offset <= size by { OffsetInside(v, size); }
    match op
    case SliceOp(begin, want) => SliceFires(v, begin, want, size);
    case DiagonalOp(dim1, dim2, offset) => DiagonalFires(v, dim1, dim2, offset, size);
    case _ => assert Apply(v, op).value.offset == v.offset;
  }

  lemma OffsetInside(v: NDArray, size: nat)
    requires StorageSuffices(v, size)
    ensures v.offset <= size
  {
  }

  /** Some operation of the chain trips the check on the view before it. */
  ghost predicate FiresWithin(v: NDArray, ops: seq<ViewOp>, size: nat)
    requires v.layout.Paired()
  {
    ops != [] && (
        || FiresWithin(v, ops[..|ops| - 1], size)
        || (var most := Chain(v, ops[..|ops| - 1]);
            most.Some? && most.value.layout.Paired() && Apply(most.value, ops[|ops| - 1]).Some?
            && FiresOn(most.value, ops[|ops| - 1], size)))
  }

  /**
   A chain that is fine but for the storage check is refused exactly when one of its operations
   takes nothing from outside the storage.
   */
  lemma {:induction false} ChainFiresIff(shape: seq<nat>, offset: nat, size: nat, ops: seq<ViewOp>)
    requires offset + Prod(shape) <= size && Chain(Base(shape, offset), ops).Some?
    ensures var v := Base(shape, offset);
            && (CheckedChain(v, ops, size).None? <==> FiresWithin(v, ops, size))
            && (CheckedChain(v, ops, size).Some? ==>
                  CheckedChain(v, ops, size) == Chain(v, ops) && StorageSuffices(Chain(v, ops).value, size))
    decreases |ops|
  {
    hide Prod, Apply, Safe, RowMajor, FiresOn;
    if ops != [] {
      var before := ops[..|ops| - 1];
      ChainFiresIff(shape, offset, size, before);
      ChainSafe(shape, offset, before);
      var most := Chain(Base(shape, offset), before).value;
      if CheckedChain(Base(shape, offset), before, size).Some? {
        OpFiresIff(most, ops[|ops| - 1], offset, offset + Prod(shape), size);
      }
    }
  }

  /** It does happen: an empty slice at the far corner of a 2 x 3 array starts outside the storage. */
  lemma EmptySliceFires()
    ensures var v, op := Base([2, 3], 0), SliceOp([2, 3], [1, 1]);
            Apply(v, op).Some? && FiresOn(v, op, 6) && !StorageSuffices(Apply(v, op).value, 6)
  {
    var shape: seq<nat> := [2, 3];
    var v := Base(shape, 0);
    assert shape[1..][..0] == [] && shape[1..][0] == 3 && shape[2..] == [] && shape[..1][..0] == [];
    assert shape[..1][0] == 2;
    assert Prod(shape) == 6 && Prod(shape[1..]) == 3 && Prod(shape[2..]) == 1;
    assert v.layout.stride == [3, 1];
    var starts := Starts([2, 3], shape);
    assert starts == [2, 3];
    assert Dot(starts, v.layout.stride) == 9 by {
      assert starts[..1] == [2] && v.layout.stride[..1] == [3] && starts[..1][..0] == [];
      assert v.layout.stride[..1][..0] == [];
      assert Dot([2], [3]) == 6;
    }
    assert SliceStart(2, 2) == SliceEnd(2, 1, 2);
  }

  // ---------- rebuilding row-major strides ----------

  /** The element at flat position `x`, counted in row-major order. */
  function FlatAddress(v: NDArray, x: nat): int
    requires v.layout.Paired() && AllPos(v.layout.shape)
  {
    Address(v, Digits(v.layout.shape, x))
  }

  /** Strides agree with row-major ones wherever a dimension has more than one element. */
  ghost predicate RowMajorWhereItMatters(l: Layout)
    requires l.Paired()
  {
    forall i | 0 <= i < |l.shape| && l.shape[i] > 1 :: l.stride[i] == Weights(l.shape)[i]
  }

  lemma {:induction false} DotSameWhereItMatters(idx: seq<nat>, shape: seq<nat>, s: seq<nat>, t: seq<nat>)
    requires InBase(shape, idx) && |s| == |t| == |shape|
    requires forall i | 0 <= i < |shape| && shape[i] > 1 :: s[i] == t[i]
    ensures Dot(idx, s) == Dot(idx, t)
  {
    if idx != [] {
      var k := |idx| - 1;
      DotSameWhereItMatters(idx[..k], shape[..k], s[..k], t[..k]);
      assert shape[k] <= 1 ==> idx[k] == 0;
    }
  }

  /** The flat position whose only non-zero digit is a 1 at place `p`. */
  lemma UnitDigits(shape: seq<nat>, p: nat) returns (x: nat, idx: seq<nat>)
    requires AllPos(shape) && p < |shape| && shape[p] > 1
    ensures x < Prod(shape) && Digits(shape, x) == idx
    ensures |idx| == |shape| && forall i | 0 <= i < |shape| :: idx[i] == if i == p then 1 else 0
  {
    idx := seq(|shape|, i => if i == p then 1 else 0);
    DigitsOfRank(shape, idx);
    x := Rank(shape, idx);
  }

  lemma {:induction false} DotUnit(idx: seq<nat>, s: seq<nat>, p: nat)
    requires |idx| == |s| && p < |s| && forall i | 0 <= i < |s| :: idx[i] == if i == p then 1 else 0
    ensures Dot(idx, s) == s[p]
  {
    var k := |s| - 1;
    if p == k {
      DotZero(idx[..k], s[..k]);
    } else {
      DotUnit(idx[..k], s[..k], p);
    }
  }

  lemma {:induction false} DotZero(idx: seq<nat>, s: seq<nat>)
    requires |idx| == |s| && forall i | 0 <= i < |s| :: idx[i] == 0
    ensures Dot(idx, s) == 0
  {
    if s != [] { DotZero(idx[..|s| - 1], s[..|s| - 1]); }
  }

  /** Flat positions are storage positions exactly when the strides are row-major where it matters. */
  lemma FlatIff(v: NDArray)
    requires v.layout.Paired() && NonEmpty(v)
    ensures (forall x: nat | x < Prod(v.layout.shape) :: FlatAddress(v, x) == v.offset + x) <==>
            RowMajorWhereItMatters(v.layout)
  {
    hide Prod, Dot, Digits, Rank, Weights;
    var shape, stride := v.layout.shape, v.layout.stride;
    if RowMajorWhereItMatters(v.layout) {
      forall x: nat | x < Prod(shape) ensures FlatAddress(v, x) == v.offset + x {
        DotSameWhereItMatters(Digits(shape, x), shape, stride, Weights(shape));
        RankIsDot(shape, Digits(shape, x));
        RankOfDigits(shape, x);
      }
    }
    if forall x: nat | x < Prod(shape) :: FlatAddress(v, x) == v.offset + x {
      forall p | 0 <= p < |shape| && shape[p] > 1 ensures stride[p] == Weights(shape)[p] {
        var x, idx := UnitDigits(shape, p);
        assert FlatAddress(v, x) == v.offset + x;
        DotUnit(idx, stride, p);
        DotUnit(idx, Weights(shape), p);
        RankIsDot(shape, idx);
        RankOfDigits(shape, x);
      }
    }
  }

  /**
   `view` (and `flatten`, and `split` into chunks) replaces the strides by row-major ones: the
   elements keep their flat positions if and only if the input was row-major already, up to
   dimensions of size 1.
   */
  lemma ReshapeKeepsElementsIff(v: NDArray, shape: seq<nat>)
    requires v.layout.Paired() && NonEmpty(v) && AllPos(shape) && Prod(shape) == Prod(v.layout.shape)
    ensures var w := NDArray(Layout(shape, RowMajor(shape)), v.offset);
            (forall x: nat | x < Prod(shape) :: FlatAddress(w, x) == FlatAddress(v, x)) <==>
            RowMajorWhereItMatters(v.layout)
  {
    var w := NDArray(Layout(shape, RowMajor(shape)), v.offset);
    assert 0 !in shape;
    assert RowMajorWhereItMatters(w.layout);
    FlatIff(v);
    FlatIff(w);
    hide Prod, Dot, Digits, Rank, Weights, FlatAddress;
  }

  /** The runtime's own contiguity test is enough for that. */
  lemma ContiguousSuffices(l: Layout)
    requires l.Paired() && AllPos(l.shape) && (|l.shape| < 1 || Prod(l.shape) <= 1 || l.stride == Weights(l.shape))
    ensures RowMajorWhereItMatters(l)
  {
    hide Weights;
    if Prod(l.shape) <= 1 {
      forall i | 0 <= i < |l.shape| && l.shape[i] > 1 ensures false {
        ProdSplit(l.shape, i);
        ProdPos(l.shape[..i]);
        ProdPos(l.shape[i + 1..]);
        OnlyOne(Prod(l.shape[..i]), l.shape[i], Prod(l.shape[i + 1..]));
      }
    }
  }

  lemma OnlyOne(a: nat, x: nat, b: nat)
    requires a >= 1 && b >= 1 && (a * x) * b <= 1
    ensures x <= 1
  {
    MulMono(1, b, a * x);
    MulComm(b, a * x);
    MulMono(1, a, x);
  }
}
